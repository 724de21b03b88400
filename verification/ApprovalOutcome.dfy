/** What a decision comes to, and whose decisions approve a request
    (internal/httpapi/workflow.go). */
module ApprovalOutcome {
  import opened Text
  import opened ApprovalLine
  import opened Approvals
  import opened ApprovalInvariant

  // ---- One decision ----

  /** The place whose turn it is. */
  ghost predicate Turn(places: seq<Place>, k: nat) {
    k < |places| && places[k].status.Waiting? && forall i | 0 <= i < k :: !places[i].status.Waiting?
  }

  lemma TurnIsFirst(places: seq<Place>)
    ensures forall k :: Turn(places, k) <==> k == FirstWaiting(places) && AnyWaiting(places)
  {
  }

  /** A decision is recorded exactly when the request is pending, it is that person's
      turn (or they may review, where there is no line), they have not decided yet and
      did not ask for it themselves unless requesters may decide. Otherwise nothing
      happens. */
  lemma WhoDecides(s: State, q: RequestId, user: User, verdict: Verdict, canReview: bool, allowSelf: bool)
    requires q in s.requests
    ensures var r, after := s.requests[q], Do(s, Decide(q, user, verdict, canReview, allowSelf));
            && (after != s <==>
                  && r.status.Pending? && (allowSelf || user != r.requester)
                  && (if r.sequential then exists k: nat :: Turn(r.places, k) && r.places[k].approver == user else canReview)
                  && forall i | 0 <= i < |r.decisions| :: r.decisions[i].reviewer != user)
            && (after != s ==> after.requests[q].decisions == r.decisions + [Decision(user, verdict)])
  {
    var r := s.requests[q];
    TurnIsFirst(r.places);
    assert HasDecided(r.decisions, user) <==> exists i :: 0 <= i < |r.decisions| && r.decisions[i].reviewer == user;
    hide DecideLine, ApprovalCount;
    if MayDecide(r, user, canReview, allowSelf) {
      assert |DecideRequest(r, user, verdict).decisions| == |r.decisions| + 1;
    }
  }

  /** A decision in a line marks the place whose turn it is. An approval settles the
      request if and only if that place is final or nobody waits behind it. Until it is
      settled no other place changes; then whoever was still waiting is skipped. */
  lemma DecisionInLine(
      s: State, q: RequestId, user: User, verdict: Verdict, canReview: bool, allowSelf: bool, k: nat)
    requires q in s.requests && s.requests[q].sequential && Turn(s.requests[q].places, k)
    requires MayDecide(s.requests[q], user, canReview, allowSelf)
    ensures var r, after := s.requests[q], Do(s, Decide(q, user, verdict, canReview, allowSelf)).requests[q];
            && |after.places| == |r.places| && r.places[k].approver == user
            && after.places[k] == r.places[k].(status := Decided(verdict))
            && (after.status == Settled(Approved) <==>
                  verdict.Approved? && (r.places[k].isFinal || forall i | k < i < |r.places| :: !r.places[i].status.Waiting?))
            && (after.status == Settled(Rejected) <==> verdict.Rejected?)
            && (after.status.Pending? || after.status.Settled?)
            && forall i | 0 <= i < |r.places| && i != k ::
                 after.places[i] == if r.places[i].status.Waiting? && !after.status.Pending? then r.places[i].(status := Skipped)
                                    else r.places[i]
  {
    var places := s.requests[q].places;
    TurnIsFirst(places);
    var decided := places[k := places[k].(status := Decided(verdict))];
    SomeWaiting(decided);
    assert forall i | k < i < |places| :: decided[i] == places[i];
    if AnyWaiting(decided) {
      var i :| 0 <= i < |decided| && decided[i].status == Waiting;
      assert k < i && places[i].status.Waiting?;
    }
  }

  /** Those who said yes. */
  function Approvers(decisions: seq<Decision>): set<User> {
    set d | d in decisions && d.verdict.Approved? :: d.reviewer
  }

  lemma {:induction false} ApprovalsAreCounted(decisions: seq<Decision>)
    requires OncePerReviewer(decisions)
    ensures ApprovalCount(decisions) == |Approvers(decisions)|
  {
    if decisions != [] {
      var n := |decisions| - 1;
      ApprovalsAreCounted(decisions[..n]);
      assert decisions == decisions[..n] + [decisions[n]];
      assert decisions[n].reviewer !in Approvers(decisions[..n]);
      assert Approvers(decisions)
          == Approvers(decisions[..n]) + if decisions[n].verdict.Approved? then {decisions[n].reviewer} else {};
    }
  }

  /** Without a line a request is approved by the vote with which as many different
      people have approved as are required, and rejected by the first who does not. */
  lemma DecisionByVotes(s: State, q: RequestId, user: User, verdict: Verdict, canReview: bool, allowSelf: bool)
    requires Invariant(s) && q in s.requests && !s.requests[q].sequential
    requires MayDecide(s.requests[q], user, canReview, allowSelf)
    ensures var r, after := s.requests[q], Do(s, Decide(q, user, verdict, canReview, allowSelf)).requests[q];
            && (after.status == Settled(Approved) <==> verdict.Approved? && |Approvers(r.decisions)| + 1 >= r.required)
            && (after.status == Settled(Rejected) <==> verdict.Rejected?)
            && (after.status.Pending? <==> |Approvers(after.decisions)| == |Approvers(r.decisions)| + 1 < r.required)
            && after.places == r.places
  {
    var r, after := s.requests[q], Do(s, Decide(q, user, verdict, canReview, allowSelf)).requests[q];
    DecideFine(r, user, verdict, canReview, allowSelf);
    ApprovalsAreCounted(r.decisions);
    ApprovalsAreCounted(after.decisions);
    assert after.decisions[..|r.decisions|] == r.decisions;
  }

  // ---- A line from its submission on ----

  function Then(s: State, actions: seq<Action>): State {
    if actions == [] then s else Do(Then(s, actions[..|actions| - 1]), actions[|actions| - 1])
  }

  /** A request as far as decisions have brought it from how it was submitted, with
      its final place at f. */
  ghost predicate OnCourse(r: Request, first: Request, f: nat) {
    var n := |r.decisions|;
    && r.sequential && r.requester == first.requester && r.document == first.document
    && |r.places| == |first.places| && n <= f && 0 < f <= |r.places|
    && (forall i | 0 <= i < |r.places| :: r.places[i].approver == first.places[i].approver && (r.places[i].isFinal <==> i + 1 == f))
    && (forall i | 0 <= i < n ::
          r.decisions[i].reviewer == first.places[i].approver && r.places[i].status == Decided(r.decisions[i].verdict))
    && (forall i | 0 <= i < n - 1 :: r.decisions[i].verdict.Approved?)
    && (forall i | n <= i < |r.places| :: r.places[i].status == if r.status.Pending? then Waiting else Skipped)
    && r.status == (if n > 0 && r.decisions[n - 1].verdict.Rejected? then Settled(Rejected)
                    else if n == f then Settled(Approved) else Pending)
  }

  lemma DecisionOnCourse(
      s: State, q: RequestId, user: User, verdict: Verdict, canReview: bool, allowSelf: bool, first: Request, f: nat)
    requires q in s.requests && OnCourse(s.requests[q], first, f) && MayDecide(s.requests[q], user, canReview, allowSelf)
    ensures var after := Do(s, Decide(q, user, verdict, canReview, allowSelf)).requests;
            q in after && OnCourse(after[q], first, f)
  {
    var r := s.requests[q];
    var n := |r.decisions|;
    assert Turn(r.places, n);
    DecisionInLine(s, q, user, verdict, canReview, allowSelf, n);
    var after := Do(s, Decide(q, user, verdict, canReview, allowSelf)).requests[q];
    DecidedTells(r, after, first, f, user, verdict);
  }

  lemma DecidedTells(r: Request, after: Request, first: Request, f: nat, user: User, verdict: Verdict)
    requires OnCourse(r, first, f) && r.status.Pending?
    requires var n := |r.decisions|;
             && after == r.(places := after.places, status := after.status, decisions := r.decisions + [Decision(user, verdict)])
             && |after.places| == |r.places| && r.places[n].approver == user
             && after.places[n] == r.places[n].(status := Decided(verdict))
             && (after.status == Settled(Approved) <==>
                   verdict.Approved? && (r.places[n].isFinal || forall i | n < i < |r.places| :: !r.places[i].status.Waiting?))
             && (after.status == Settled(Rejected) <==> verdict.Rejected?)
             && (after.status.Pending? || after.status.Settled?)
             && forall i | 0 <= i < |r.places| && i != n ::
                  after.places[i] == if r.places[i].status.Waiting? && !after.status.Pending? then r.places[i].(status := Skipped)
                                     else r.places[i]
    ensures OnCourse(after, first, f)
  {
    var n := |r.decisions|;
    assert r.places[n].isFinal <==> n + 1 == f;
    if n + 1 < f { assert r.places[n + 1].status.Waiting?; }
  }

  lemma CourseGoesOn(s: State, a: Action, q: RequestId, first: Request, f: nat)
    requires q in s.requests && OnCourse(s.requests[q], first, f) && !a.Offboard? && !a.Purge?
    ensures q in Do(s, a).requests && OnCourse(Do(s, a).requests[q], first, f)
  {
    if a.Decide? && a.request == q && MayDecide(s.requests[q], a.user, a.canReview, a.allowSelf) {
      DecisionOnCourse(s, q, a.user, a.verdict, a.canReview, a.allowSelf, first, f);
    } else {
      hide OnCourse, MayDecide;
      assert q in Do(s, a).requests && Do(s, a).requests[q] == s.requests[q];
    }
  }

  lemma {:induction false} CourseKept(s: State, actions: seq<Action>, q: RequestId, first: Request, f: nat)
    requires q in s.requests && OnCourse(s.requests[q], first, f)
    requires forall a | a in actions :: !a.Offboard? && !a.Purge?
    ensures q in Then(s, actions).requests && OnCourse(Then(s, actions).requests[q], first, f)
  {
    hide Do, OnCourse;
    if actions != [] {
      var n := |actions| - 1;
      CourseKept(s, actions[..n], q, first, f);
      CourseGoesOn(Then(s, actions[..n]), actions[n], q, first, f);
    }
  }

  lemma NextMayDecide(r: Request, first: Request, f: nat)
    requires OnCourse(r, first, f) && DistinctPlaces(first.places) && r.status.Pending?
    ensures forall user, canReview, allowSelf ::
        MayDecide(r, user, canReview, allowSelf)
        <==> user == first.places[|r.decisions|].approver && (allowSelf || user != first.requester)
  {
    assert Turn(r.places, |r.decisions|);
    TurnIsFirst(r.places);
    assert forall i | 0 <= i < |r.decisions| :: r.decisions[i].reviewer != first.places[|r.decisions|].approver;
  }

  /** Whoever tries to decide what, and whatever else happens but offboarding and
      purging: a line submitted with its final place at f is decided by its first people
      in turn; it is approved when the first f have approved, rejected with the first
      rejection, and otherwise open to the next one alone. */
  lemma ApprovedByItsFirst(
      s: State, d: DocId, q: RequestId, requester: User, required: nat, approvers: seq<User>, finalAt: int, allowSelf: bool,
      readers: set<User>, later: seq<Action>)
    requires Open(s, d) && !s.documents[d].workflow.UnderReview? && q !in s.requests && approvers != []
    requires Built(approvers, finalAt, requester, allowSelf, readers).Line?
    requires forall a | a in later :: !a.Offboard? && !a.Purge?
    ensures var line := Built(approvers, finalAt, requester, allowSelf, readers).steps;
            var after := Then(Do(s, Submit(d, q, requester, required, line)), later);
            var f := if finalAt > 0 then finalAt else |approvers|;
            && q in after.requests && after.requests[q].document == d
            && var r := after.requests[q];
            var n := |r.decisions|;
            && n <= f && (forall i | 0 <= i < n :: r.decisions[i].reviewer == approvers[i])
            && (forall i | 0 <= i < n - 1 :: r.decisions[i].verdict.Approved?)
            && (r.status == Settled(Approved) <==> n == f && r.decisions[n - 1].verdict.Approved?)
            && (r.status == Settled(Rejected) <==> n > 0 && r.decisions[n - 1].verdict.Rejected?)
            && (r.status.Pending? <==> n < f && (n > 0 ==> r.decisions[n - 1].verdict.Approved?))
            && (r.status.Pending? ==> forall user, canReview, selfNow ::
                  MayDecide(r, user, canReview, selfNow) <==> user == approvers[n] && (selfNow || user != requester))
  {
    var line := Built(approvers, finalAt, requester, allowSelf, readers).steps;
    var submitted := Do(s, Submit(d, q, requester, required, line));
    var f := if finalAt > 0 then finalAt else |approvers|;
    var first := submitted.requests[q];
    assert OnCourse(first, first, f);
    CourseKept(submitted, later, q, first, f);
    var r := Then(submitted, later).requests[q];
    hide Do, Then, MayDecide;
    if r.status.Pending? { NextMayDecide(r, first, f); }
  }

  /** What comes from "buildApprovalLine" may be submitted, and a policy asks for one
      approval or more. */
  lemma BuiltLinesAreAllowed(
      d: DocId, q: RequestId, requester: User, required: nat, approvers: seq<User>, finalAt: int, allowSelf: bool,
      readers: set<User>)
    requires Built(approvers, finalAt, requester, allowSelf, readers).Line? && required >= 1
    ensures Allowed(Submit(d, q, requester, required, Built(approvers, finalAt, requester, allowSelf, readers).steps))
    ensures Allowed(McpSubmit(d, q, requester, required))
  {
  }

  lemma OthersAreAllowed(a: Action)
    requires !a.Submit? && !a.McpSubmit?
    ensures Allowed(a)
  {
  }

  // ---- Offboarding ----

  /** Each place that someone who leaves holds in a pending request, and has not decided,
      is skipped if the recipient has a place there too and is the recipient's otherwise;
      no other place changes, and decisions stay. A line in which nobody is left to wait
      for is cancelled. */
  lemma OffboardingHandsOver(s: State, from: User, recipient: User, q: RequestId, i: nat)
    requires from != recipient && q in s.requests && i < |s.requests[q].places|
    ensures var r, after := s.requests[q], Do(s, Offboard(from, recipient, true)).requests[q];
            var p := r.places[i];
            && |after.places| == |r.places| && after.decisions == r.decisions
            && (if !r.status.Pending? || p.approver != from || !p.status.Waiting? then after.places[i] == p
                else if exists j :: 0 <= j < |r.places| && r.places[j].approver == recipient
                then after.places[i].status.Skipped? && after.places[i].approver == from
                else after.places[i].status.Waiting? && after.places[i].approver == recipient)
            && after.places[i].isFinal == p.isFinal
            && (after.status.Cancelled? <==>
                  r.status.Cancelled?
                  || (r.status.Pending? && r.sequential && forall j | 0 <= j < |after.places| :: !after.places[j].status.Waiting?))
  {
    var r := s.requests[q];
    assert Stands(r.places, recipient) <==> exists j :: 0 <= j < |r.places| && r.places[j].approver == recipient;
    var after := OffboardRequest(r, from, recipient);
    if r.status.Pending? && AnyWaiting(after.places) { assert after.places[FirstWaiting(after.places)].status.Waiting?; }
  }
}
