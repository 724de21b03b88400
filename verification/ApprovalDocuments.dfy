/** What the steps of a review leave of the documents themselves, and that saving and
    restoring are those of Revisions (internal/httpapi/documents.go, mcp.go,
    admin_overview.go). */
module ApprovalDocuments {
  import opened Text
  import opened Approvals
  import Revisions

  /** The history of a document agrees with its row. */
  ghost predicate Agrees(d: Document, h: Revisions.History) {
    d.revision == h.current && d.content == h.content
  }

  /** Of a document that is not under review and not in the trash, a save, through the
      editor or MCP, or a restore does to the row what it does to the history; and of
      the rest only a save changes anything, the status where it brings one. */
  lemma WritesAreRevisions(s: State, d: DocId, h: Revisions.History, expected: nat, body: Option<int>, chosen: Option<Status>, now: int)
    requires Open(s, d) && !s.documents[d].workflow.UnderReview? && Agrees(s.documents[d], h)
    ensures var before, after := s.documents[d], Do(s, Save(d, expected, body, chosen)).documents;
            && d in after && Agrees(after[d], Revisions.Do(h, Revisions.Save(expected, body, now)))
            && after[d].workspace == before.workspace && after[d].workflow == before.workflow && !after[d].trashed
            && (if chosen.Some? && (expected == 0 || expected == before.revision) then after[d].status == chosen.value
                else after[d].status == before.status)
    ensures var before, after := s.documents[d], Do(s, McpUpdate(d, expected, body)).documents;
            && d in after && Agrees(after[d], Revisions.Do(h, Revisions.McpUpdate(expected, body, now)))
            && after[d] == before.(content := after[d].content, revision := after[d].revision)
  {
  }

  /** A restore does so even under review. */
  lemma RestoresAreRevisions(s: State, d: DocId, h: Revisions.History, number: nat, now: int)
    requires Open(s, d) && Agrees(s.documents[d], h) && number in h.rows
    ensures var before, after := s.documents[d], Do(s, RestoreRevision(d, h.rows[number].content)).documents;
            && d in after && Agrees(after[d], Revisions.Do(h, Revisions.Restore(number, now)))
            && after[d] == before.(content := after[d].content, revision := after[d].revision)
  {
  }

  /** A new document is a draft nobody has submitted, outside the trash, at the first
      revision of a history of its own. */
  lemma CreationsAreRevisions(s: State, d: DocId, workspace: nat, content: int, now: int)
    requires d !in s.documents
    ensures var after := Do(s, Create(d, workspace, content));
            && after.requests == s.requests && after.documents.Keys == s.documents.Keys + {d}
            && Open(after, d) && Agrees(after.documents[d], Revisions.Created(content, now))
            && after.documents[d].workspace == workspace && after.documents[d].workflow.NotSubmitted? && after.documents[d].status.InDraft?
  {
  }

  /** What a step does to the trash: a document goes in and comes out alone, and unless
      it is under review; a workspace goes in as a whole, or not at all if one of its
      documents is under review; and what is purged was in it and takes its requests
      along. */
  lemma TrashSteps(s: State, d: DocId, workspace: nat)
    requires d in s.documents
    ensures var after := Do(s, Trash(d));
            after.documents[d].trashed <==> s.documents[d].trashed || !s.documents[d].workflow.UnderReview?
    ensures !Do(s, Untrash(d)).documents[d].trashed
    ensures var after := Do(s, ArchiveWorkspace(workspace));
            if exists e :: e in s.documents && s.documents[e].workspace == workspace && !s.documents[e].trashed
                           && s.documents[e].workflow.UnderReview?
            then after == s
            else after.documents[d] == s.documents[d].(trashed := s.documents[d].trashed || s.documents[d].workspace == workspace)
    ensures var after := Do(s, Purge(d));
            && (d !in after.documents <==> s.documents[d].trashed)
            && (forall e | e in s.documents && e != d :: e in after.documents && after.documents[e] == s.documents[e])
            && (forall q | q in s.requests ::
                  (q in after.requests <==> !(s.documents[d].trashed && s.requests[q].document == d))
                  && (q in after.requests ==> after.requests[q] == s.requests[q]))
  {
  }

  /** A step that names a document leaves every other as it is. */
  lemma OthersStay(s: State, a: Action, d: DocId, e: DocId)
    requires a.Create? || a.Submit? || a.McpSubmit? || a.Save? || a.McpUpdate? || a.Trash? || a.Untrash? || a.Purge? || a.RestoreRevision?
    requires d == a.document && e != d
    ensures var after := Do(s, a);
            (e in after.documents <==> e in s.documents) && (e in s.documents ==> after.documents[e] == s.documents[e])
  {
  }

  /** A submission puts a document under review with a pending request that nobody has
      decided, exactly when it is open and not under review already. */
  lemma SubmissionsOpen(s: State, a: Action)
    requires (a.Submit? || a.McpSubmit?) && a.request !in s.requests
    ensures var after := Do(s, a);
            && (a.request in after.requests <==>
                  a.document in s.documents && !s.documents[a.document].trashed && !s.documents[a.document].workflow.UnderReview?)
            && (if a.request in after.requests then
                  var r, before, d := after.requests[a.request], s.documents[a.document], after.documents[a.document];
                  && r.document == a.document && r.requester == a.requester && r.status.Pending? && r.decisions == []
                  && d == before.(workflow := UnderReview, status := InReview)
                  && (r.sequential <==> a.Submit? && a.line != [])
                  && (!r.sequential ==> r.required == a.required && r.places == [])
                else after == s)
  {
  }
}
