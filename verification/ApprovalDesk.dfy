/** The review steps statement by statement, each transaction tied to its step in
    Approvals. */
module ApprovalDesk {
  import opened Text
  import opened ApprovalLine
  import opened Approvals

  /** A statement over the places of a line. */
  function SkipDoubled(places: seq<Place>, from: User, recipient: User): (r: seq<Place>)
    ensures |r| == |places|
  {
    seq(|places|, i requires 0 <= i < |places| =>
      if places[i].approver == from && places[i].status.Waiting? && Stands(places, recipient)
      then places[i].(status := Skipped) else places[i])
  }

  function Reassign(places: seq<Place>, from: User, recipient: User): (r: seq<Place>)
    ensures |r| == |places|
  {
    seq(|places|, i requires 0 <= i < |places| =>
      if places[i].approver == from && places[i].status.Waiting? then places[i].(approver := recipient) else places[i])
  }

  /** Skipping and then reassigning is handing over. */
  lemma TwoStatements(places: seq<Place>, from: User, recipient: User)
    requires from != recipient
    ensures Reassign(SkipDoubled(places, from, recipient), from, recipient) == HandOver(places, from, recipient)
  {
    var skipped := SkipDoubled(places, from, recipient);
    forall i | 0 <= i < |places|
      ensures Reassign(skipped, from, recipient)[i] == HandOver(places, from, recipient)[i]
    {
    }
  }

  function HandedOver(r: Request, from: User, recipient: User): Request {
    if r.status.Pending? then r.(places := HandOver(r.places, from, recipient)) else r
  }

  /** A pending line nobody is left in. */
  predicate Deserted(r: Request) {
    r.status.Pending? && r.sequential && !AnyWaiting(r.places)
  }

  lemma ThreeStatements(r: Request, from: User, recipient: User)
    ensures var handed := HandedOver(r, from, recipient);
            OffboardRequest(r, from, recipient) == if Deserted(handed) then handed.(status := Cancelled) else handed
    ensures Deserted(HandedOver(r, from, recipient)) <==> r.status.Pending? && OffboardRequest(r, from, recipient).status.Cancelled?
    ensures HandedOver(r, from, recipient).document == r.document
  {
  }

  lemma OffboardedIs(s: State, from: User, recipient: User, drafts: set<DocId>, after: State)
    requires forall d :: d in drafts <==> Emptied(s, from, recipient, d)
    requires after.requests.Keys == s.requests.Keys && after.documents.Keys == s.documents.Keys
    requires forall q | q in s.requests :: after.requests[q] == OffboardRequest(s.requests[q], from, recipient)
    requires forall d | d in s.documents ::
        after.documents[d] == if d in drafts then s.documents[d].(workflow := Draft, status := InDraft) else s.documents[d]
    ensures after == OffboardAll(s, from, recipient)
  {
    hide Emptied, OffboardRequest;
    var all := OffboardAll(s, from, recipient);
    assert after.requests == all.requests && after.documents == all.documents;
  }

  lemma EmptiedAre(s: State, from: User, recipient: User, emptied: set<RequestId>, drafts: set<DocId>)
    requires forall q :: q in emptied <==> q in s.requests && Deserted(HandedOver(s.requests[q], from, recipient))
    requires drafts == set q | q in emptied :: s.requests[q].document
    ensures forall d :: d in drafts <==> Emptied(s, from, recipient, d)
  {
    forall q | q in s.requests {
      ThreeStatements(s.requests[q], from, recipient);
    }
    hide HandedOver, Deserted, OffboardRequest;
  }

  class Desk {
    var documents: map<DocId, Document>
    var requests: map<RequestId, Request>

    function Contents(): State
      reads this
    {
      State(documents, requests)
    }

    constructor ()
      ensures Contents() == Run([])
    {
      documents, requests := map[], map[];
    }

    /** Places are inserted one by one, in the order of the line. */
    method InsertSteps(q: RequestId, line: seq<Step>)
      requires q in requests && requests[q].places == []
      modifies this`requests
      ensures requests == old(requests)[q := old(requests)[q].(places := Planned(line))]
    {
      var index := 0;
      while index < |line|
        invariant index <= |line|
        invariant requests.Keys == old(requests).Keys
        invariant requests == old(requests)[q := old(requests)[q].(places := Planned(line[..index]))]
      {
        assert Planned(line[..index + 1]) == Planned(line[..index]) + [Place(line[index].approver, line[index].isFinal, Waiting)];
        requests := requests[q := requests[q].(
            places := requests[q].places + [Place(line[index].approver, line[index].isFinal, Waiting)])];
        index := index + 1;
      }
      assert line[..index] == line;
    }

    method SubmitApproval(d: DocId, q: RequestId, requester: User, required: nat, line: seq<Step>) returns (ok: bool)
      requires q !in requests
      modifies this
      ensures Contents() == Do(old(Contents()), Submit(d, q, requester, required, line))
      ensures ok <==> Contents() != old(Contents())
    {
      ok := false;
      if d !in documents || documents[d].trashed { return; }
      if documents[d].workflow.UnderReview? { return; }
      var sequential, needed := false, required;
      if |line| > 0 {
        sequential := true;
        needed := |line|;
      }
      requests := requests[q := Request(d, requester, needed, Pending, sequential, [], [])];
      InsertSteps(q, line);
      documents := documents[d := documents[d].(workflow := UnderReview, status := InReview)];
      ok := true;
      assert Planned([]) == [];
      assert q in requests && q !in old(requests);
    }

    /** The vote is recorded, the line or the count moves on, and what is settled is
        settled on the document too. */
    method DecideApproval(q: RequestId, user: User, verdict: Verdict, canReview: bool, allowSelf: bool) returns (ok: bool)
      modifies this
      ensures Contents() == Do(old(Contents()), Decide(q, user, verdict, canReview, allowSelf))
      ensures ok <==> q in old(requests) && MayDecide(old(requests)[q], user, canReview, allowSelf)
    {
      hide DecideLine, ApprovalCount;
      ok := false;
      if q !in requests || !requests[q].status.Pending? { return; }
      var r := requests[q];
      var current := |r.places|;
      if r.sequential {
        current := FirstWaiting(r.places);
        if current == |r.places| || r.places[current].approver != user { return; }
      } else if !canReview {
        return;
      }
      if !allowSelf && r.requester == user { return; }
      if HasDecided(r.decisions, user) { return; }
      ok := true;
      var decisions := r.decisions + [Decision(user, verdict)];
      var status := Pending;
      var places := r.places;
      if r.sequential {
        places, status := DecideStep(places, current, verdict);
      } else if verdict.Rejected? {
        status := Settled(Rejected);
      } else {
        var count := CountApprovals(decisions);
        if count >= r.required { status := Settled(Approved); }
      }
      requests := requests[q := r.(places := places, decisions := decisions)];
      if !status.Pending? {
        requests := requests[q := requests[q].(status := status)];
        if r.document in documents {
          var workflow, publication := Declined, InDraft;
          if status == Settled(Approved) {
            workflow, publication := Accepted, Published;
          }
          documents := documents[r.document := documents[r.document].(workflow := workflow, status := publication)];
        }
      } else if r.document in documents {
        assert documents[r.document := documents[r.document]] == documents;
      }
      assert requests == old(requests)[q := DecideRequest(r, user, verdict)];
    }

    /** The step is decided; a rejection or a final approval ends the line, and so does
        having nobody left. */
    method DecideStep(line: seq<Place>, current: nat, verdict: Verdict) returns (places: seq<Place>, status: RequestStatus)
      requires current == FirstWaiting(line) < |line|
      ensures (places, status) == DecideLine(line, verdict) && !status.Cancelled?
    {
      status := Pending;
      places := line[current := line[current].(status := Decided(verdict))];
      if verdict.Rejected? {
        status := Settled(Rejected);
        places := SkipWaiting(places);
      } else if line[current].isFinal {
        status := Settled(Approved);
        places := SkipWaiting(places);
      } else if !AnyWaiting(places) {
        status := Settled(Approved);
      }
    }

    method CountApprovals(decisions: seq<Decision>) returns (count: nat)
      ensures count == ApprovalCount(decisions)
    {
      count := 0;
      var k := 0;
      while k < |decisions|
        invariant k <= |decisions| && count == ApprovalCount(decisions[..k])
      {
        assert decisions[..k + 1][..k] == decisions[..k];
        if decisions[k].verdict.Approved? { count := count + 1; }
        k := k + 1;
      }
      assert decisions[..k] == decisions;
    }

    /** Skip and reassign. */
    method HandOverPlaces(from: User, recipient: User)
      requires from != recipient
      modifies this`requests
      ensures requests.Keys == old(requests).Keys
      ensures forall q | q in requests :: requests[q] == HandedOver(old(requests)[q], from, recipient)
    {
      requests := map q | q in requests ::
        if requests[q].status.Pending? then requests[q].(places := SkipDoubled(requests[q].places, from, recipient))
        else requests[q];
      requests := map q | q in requests ::
        if requests[q].status.Pending? then requests[q].(places := Reassign(requests[q].places, from, recipient))
        else requests[q];
      forall q | q in requests
        ensures Reassign(SkipDoubled(old(requests)[q].places, from, recipient), from, recipient)
             == HandOver(old(requests)[q].places, from, recipient)
      {
        TwoStatements(old(requests)[q].places, from, recipient);
      }
    }

    /** Three statements in one transaction: skip, reassign, cancel what is left with
        nobody to wait for. */
    method OffboardApprovals(from: User, recipient: User)
      requires from != recipient
      modifies this
      ensures Contents() == Do(old(Contents()), Offboard(from, recipient, true))
    {
      ghost var s := Contents();
      HandOverPlaces(from, recipient);
      forall q | q in requests {
        ThreeStatements(s.requests[q], from, recipient);
      }
      hide HandedOver, Deserted, OffboardRequest, Emptied;
      var emptied := set q | q in requests && Deserted(requests[q]);
      var drafts := set q | q in emptied :: requests[q].document;
      EmptiedAre(s, from, recipient, emptied, drafts);
      requests := map q | q in requests :: if q in emptied then requests[q].(status := Cancelled) else requests[q];
      documents := map d | d in documents ::
        if d in drafts then documents[d].(workflow := Draft, status := InDraft) else documents[d];
      hide OffboardAll;
      OffboardedIs(s, from, recipient, drafts, Contents());
    }

    /** Everything that may go to the trash goes; if anything is left, nothing went. */
    method ArchiveDocuments(workspace: nat) returns (ok: bool)
      modifies this
      ensures Contents() == Do(old(Contents()), ArchiveWorkspace(workspace))
      ensures ok <==> CanArchive(old(Contents()), workspace)
      ensures ok ==> forall d | d in documents && documents[d].workspace == workspace :: documents[d].trashed
      ensures !ok ==> documents == old(documents)
    {
      var before := documents;
      documents := map d | d in documents ::
        if documents[d].workspace == workspace && !documents[d].trashed && !documents[d].workflow.UnderReview?
        then documents[d].(trashed := true) else documents[d];
      ok := !exists d :: d in documents && documents[d].workspace == workspace && !documents[d].trashed;
      if !ok {
        documents := before;
      }
      assert ok <==> CanArchive(old(Contents()), workspace) by {
        assert forall d | d in before ::
            (documents[d].workspace == workspace && !before[d].trashed && before[d].workflow.UnderReview?) ==> !ok;
      }
    }
  }
}
