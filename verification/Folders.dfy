/** Folders and the documents filed in them: internal/httpapi/folders.go, with the
    creation of both (workspaces.go, documents.go) and the bulk move (bulk.go). A
    check and the update it guards are one step. */
module Folders {
  import opened Text

  type FolderId = nat
  type DocId = nat

  datatype Folder = Folder(workspace: nat, parent: Option<FolderId>, live: bool)
  datatype Document = Document(workspace: nat, folder: Option<FolderId>, trashed: bool)
  datatype State = State(folders: map<FolderId, Folder>, documents: map<DocId, Document>)

  // ---- Going up ----

  /** The n-th folder above, the folder itself being the 0th. */
  function Climb(folders: map<FolderId, Folder>, f: FolderId, n: nat): Option<FolderId>
    decreases n
  {
    if f !in folders then None
    else if n == 0 then Some(f)
    else if folders[f].parent.None? then None
    else Climb(folders, folders[f].parent.value, n - 1)
  }

  ghost predicate IsUnder(folders: map<FolderId, Folder>, candidate: FolderId, ancestor: FolderId) {
    exists n: nat :: Climb(folders, candidate, n) == Some(ancestor)
  }

  /** A height that falls on the way up. */
  ghost predicate Ranked(folders: map<FolderId, Folder>, rank: map<FolderId, nat>) {
    && folders.Keys <= rank.Keys
    && forall f | f in folders && folders[f].parent.Some? ::
         folders[f].parent.value in folders && rank[folders[f].parent.value] < rank[f]
  }

  ghost predicate Acyclic(folders: map<FolderId, Folder>) {
    exists rank :: Ranked(folders, rank)
  }

  /** No folder of an acyclic set is above itself. */
  lemma {:induction false} ClimbDescends(folders: map<FolderId, Folder>, rank: map<FolderId, nat>, f: FolderId, n: nat)
    requires Ranked(folders, rank) && f in folders
    ensures var up := Climb(folders, f, n);
            up.Some? ==> up.value in folders && rank[up.value] + n <= rank[f]
    decreases n
  {
    if n > 0 && folders[f].parent.Some? {
      ClimbDescends(folders, rank, folders[f].parent.value, n - 1);
    }
  }

  lemma UnderStep(folders: map<FolderId, Folder>, f: FolderId, ancestor: FolderId)
    requires f in folders
    ensures IsUnder(folders, f, ancestor) <==>
            f == ancestor || (folders[f].parent.Some? && IsUnder(folders, folders[f].parent.value, ancestor))
  {
    if f == ancestor { assert Climb(folders, f, 0) == Some(ancestor); }
    if IsUnder(folders, f, ancestor) {
      var n: nat :| Climb(folders, f, n) == Some(ancestor);
      if n > 0 { assert Climb(folders, folders[f].parent.value, n - 1) == Some(ancestor); }
    }
    if folders[f].parent.Some? && IsUnder(folders, folders[f].parent.value, ancestor) {
      var n: nat :| Climb(folders, folders[f].parent.value, n) == Some(ancestor);
      assert Climb(folders, f, n + 1) == Some(ancestor);
    }
  }

  /** The recursive query, row by row. It ends because nothing is above itself. */
  method FolderIsDescendant(folders: map<FolderId, Folder>, candidate: FolderId, ancestor: FolderId) returns (found: bool)
    requires Acyclic(folders)
    ensures found <==> IsUnder(folders, candidate, ancestor)
  {
    ghost var rank :| Ranked(folders, rank);
    if candidate !in folders {
      assert forall n: nat :: Climb(folders, candidate, n).None?;
      return false;
    }
    var at := candidate;
    while true
      invariant at in folders
      invariant IsUnder(folders, candidate, ancestor) <==> IsUnder(folders, at, ancestor)
      decreases rank[at]
    {
      UnderStep(folders, at, ancestor);
      if at == ancestor { return true; }
      if folders[at].parent.None? { return false; }
      at := folders[at].parent.value;
    }
  }

  // ---- Steps ----

  predicate LiveIn(s: State, f: FolderId, workspace: nat) {
    f in s.folders && s.folders[f].live && s.folders[f].workspace == workspace
  }

  predicate LiveOrNone(s: State, f: Option<FolderId>, workspace: nat) {
    f.None? || LiveIn(s, f.value, workspace)
  }

  datatype Action =
    | CreateFolder(folder: FolderId, workspace: nat, parent: Option<FolderId>)
    | MoveFolder(folder: FolderId, parent: Option<FolderId>)
    | DeleteFolder(folder: FolderId)
    | CreateDocument(document: DocId, workspace: nat, into: Option<FolderId>)
    | MoveDocument(document: DocId, target: Option<nat>, place: Option<Option<FolderId>>)
    | BulkMove(document: DocId, into: Option<FolderId>)
    | TrashDocument(document: DocId)
    | UntrashDocument(document: DocId)

  ghost predicate MayMove(s: State, f: FolderId, parent: Option<FolderId>) {
    && f in s.folders && s.folders[f].live
    && (parent.Some? ==>
          parent.value != f && LiveIn(s, parent.value, s.folders[f].workspace) && !IsUnder(s.folders, parent.value, f))
  }

  function SetParent(folders: map<FolderId, Folder>, f: FolderId, parent: Option<FolderId>): map<FolderId, Folder>
    requires f in folders
  {
    folders[f := folders[f].(parent := parent)]
  }

  /** What was in the folder goes where the folder was. */
  function Lifted(s: State, f: FolderId): State
    requires f in s.folders
  {
    var parent := s.folders[f].parent;
    State(
      map g | g in s.folders ::
        if g == f then s.folders[g].(live := false)
        else if s.folders[g].live && s.folders[g].parent == Some(f) then s.folders[g].(parent := parent)
        else s.folders[g],
      map d | d in s.documents ::
        if s.documents[d].folder == Some(f) then s.documents[d].(folder := parent) else s.documents[d])
  }

  ghost function Do(s: State, a: Action): State {
    match a
    case CreateFolder(f, workspace, parent) =>
      if f in s.folders || !LiveOrNone(s, parent, workspace) then s
      else s.(folders := s.folders[f := Folder(workspace, parent, true)])
    case MoveFolder(f, parent) =>
      if !MayMove(s, f, parent) then s else s.(folders := SetParent(s.folders, f, parent))
    case DeleteFolder(f) =>
      if f !in s.folders || !s.folders[f].live then s else Lifted(s, f)
    case CreateDocument(d, workspace, into) =>
      if d in s.documents || !LiveOrNone(s, into, workspace) then s
      else s.(documents := s.documents[d := Document(workspace, into, false)])
    case MoveDocument(d, target, place) =>
      if d !in s.documents || s.documents[d].trashed then s
      else
        var workspace := if target.Some? then target.value else s.documents[d].workspace;
        if place.Some? && !LiveOrNone(s, place.value, workspace) then s
        else
          var folder :=
            if place.Some? then place.value
            else if workspace != s.documents[d].workspace then None
            else s.documents[d].folder;
          s.(documents := s.documents[d := s.documents[d].(workspace := workspace, folder := folder)])
    case BulkMove(d, into) =>
      if d !in s.documents || s.documents[d].trashed || !LiveOrNone(s, into, s.documents[d].workspace) then s
      else s.(documents := s.documents[d := s.documents[d].(folder := into)])
    case TrashDocument(d) =>
      if d !in s.documents then s else s.(documents := s.documents[d := s.documents[d].(trashed := true)])
    case UntrashDocument(d) =>
      if d !in s.documents then s else s.(documents := s.documents[d := s.documents[d].(trashed := false)])
  }

  ghost function Run(actions: seq<Action>): State {
    if actions == [] then State(map[], map[]) else Do(Run(actions[..|actions| - 1]), actions[|actions| - 1])
  }

  // ---- What every run keeps ----

  ghost predicate ParentsLive(s: State) {
    forall f | f in s.folders && s.folders[f].live :: LiveOrNone(s, s.folders[f].parent, s.folders[f].workspace)
  }

  /** In the trash or not, a document is in a live folder of its workspace or at the top. */
  ghost predicate Filed(s: State) {
    forall d | d in s.documents :: LiveOrNone(s, s.documents[d].folder, s.documents[d].workspace)
  }

  ghost predicate Invariant(s: State) {
    Acyclic(s.folders) && ParentsLive(s) && Filed(s)
  }

  /** The heights after a move: the branch that moved is lifted above its new place. */
  ghost function Lift(folders: map<FolderId, Folder>, rank: map<FolderId, nat>, f: FolderId, amount: nat): map<FolderId, nat> {
    map g | g in rank :: if IsUnder(folders, g, f) then rank[g] + amount else rank[g]
  }

  lemma GraftStaysAcyclic(folders: map<FolderId, Folder>, f: FolderId, parent: FolderId)
    requires Acyclic(folders) && f in folders && parent in folders && !IsUnder(folders, parent, f)
    ensures Acyclic(SetParent(folders, f, Some(parent)))
  {
    var rank :| Ranked(folders, rank);
    var lifted := Lift(folders, rank, f, rank[parent] + 1);
    var moved := SetParent(folders, f, Some(parent));
    forall g | g in moved && moved[g].parent.Some?
      ensures moved[g].parent.value in moved && lifted[moved[g].parent.value] < lifted[g]
    {
      UnderStep(folders, g, f);
    }
    assert Ranked(moved, lifted);
  }

  lemma MoveStaysAcyclic(s: State, f: FolderId, parent: Option<FolderId>)
    requires Invariant(s) && MayMove(s, f, parent)
    ensures Acyclic(SetParent(s.folders, f, parent))
  {
    if parent.None? {
      var rank :| Ranked(s.folders, rank);
      assert Ranked(SetParent(s.folders, f, parent), rank);
    } else {
      GraftStaysAcyclic(s.folders, f, parent.value);
    }
  }

  lemma LiftingKeeps(s: State, f: FolderId)
    requires Invariant(s) && f in s.folders && s.folders[f].live
    ensures Invariant(Lifted(s, f))
  {
    var rank :| Ranked(s.folders, rank);
    assert Ranked(Lifted(s, f).folders, rank);
  }

  lemma StepKeeps(s: State, a: Action)
    requires Invariant(s)
    ensures Invariant(Do(s, a))
  {
    match a
    case CreateFolder(f, workspace, parent) =>
      var rank :| Ranked(s.folders, rank);
      var height := if parent.Some? && parent.value in rank then rank[parent.value] + 1 else 0;
      if Do(s, a) != s {
        assert Ranked(Do(s, a).folders, rank[f := height]);
      }
    case MoveFolder(f, parent) =>
      if MayMove(s, f, parent) { MoveStaysAcyclic(s, f, parent); }
    case DeleteFolder(f) =>
      if f in s.folders && s.folders[f].live { LiftingKeeps(s, f); }
    case _ =>
  }

  /** Every run keeps the folders a forest, every live folder under a live one of its
      own workspace or at the top, and every document where it can be found. */
  lemma {:induction false} EveryRunKeeps(actions: seq<Action>)
    ensures Invariant(Run(actions))
  {
    hide Do, Invariant;
    if actions == [] {
      assert Invariant(Run([])) by { NothingYet(); }
    } else {
      var n := |actions| - 1;
      EveryRunKeeps(actions[..n]);
      StepKeeps(Run(actions[..n]), actions[n]);
    }
  }

  lemma NothingYet()
    ensures Invariant(Run([]))
  {
    assert Ranked(map[], map[]);
  }

  // ---- What the steps do ----

  /** A live folder goes where it is sent, and nothing else changes, exactly when that is
      the top or a live folder of its workspace outside its own branch. */
  lemma MovesGo(s: State, f: FolderId, parent: Option<FolderId>)
    requires Invariant(s) && f in s.folders && s.folders[f].live
    ensures var after := Do(s, MoveFolder(f, parent));
            && after.documents == s.documents && after.folders.Keys == s.folders.Keys
            && (forall g | g in s.folders && g != f :: after.folders[g] == s.folders[g])
            && (if parent.None?
                   || (parent.value in s.folders && s.folders[parent.value].live
                       && s.folders[parent.value].workspace == s.folders[f].workspace && !IsUnder(s.folders, parent.value, f))
                then after.folders[f] == Folder(s.folders[f].workspace, parent, true)
                else after.folders[f] == s.folders[f])
  {
    UnderStep(s.folders, f, f);
  }

  /** What is created is there, live or outside the trash, where it was asked for, exactly
      when that is the top or a live folder of the workspace. */
  lemma CreationsAppear(s: State, f: FolderId, d: DocId, workspace: nat, place: Option<FolderId>)
    requires f !in s.folders && d !in s.documents
    ensures var fits := place.None? || (place.value in s.folders && s.folders[place.value].live && s.folders[place.value].workspace == workspace);
            && Do(s, CreateFolder(f, workspace, place))
            == (if fits then State(s.folders[f := Folder(workspace, place, true)], s.documents) else s)
            && Do(s, CreateDocument(d, workspace, place))
            == (if fits then State(s.folders, s.documents[d := Document(workspace, place, false)]) else s)
  {
  }

  /** Where a document outside the trash is after a move: in the workspace and folder it
      was sent to if the folder is a live one there; at the top of another workspace if
      no folder was named; else where it was. Nothing but its place changes. */
  lemma DocumentsGo(s: State, d: DocId, target: Option<nat>, place: Option<Option<FolderId>>)
    requires d in s.documents && !s.documents[d].trashed
    ensures var before, after := s.documents[d], Do(s, MoveDocument(d, target, place));
            var workspace := if target.Some? then target.value else before.workspace;
            && after.folders == s.folders
            && (match place
                case None => after.documents[d] == Document(workspace, if workspace == before.workspace then before.folder else None, false)
                case Some(None) => after.documents[d] == Document(workspace, None, false)
                case Some(Some(f)) =>
                  if f in s.folders && s.folders[f].live && s.folders[f].workspace == workspace
                  then after.documents[d] == Document(workspace, Some(f), false)
                  else after.documents[d] == before)
    ensures forall into: Option<FolderId> :: Do(s, BulkMove(d, into)) == Do(s, MoveDocument(d, None, Some(into)))
    ensures Do(s, TrashDocument(d)).documents[d] == s.documents[d].(trashed := true)
    ensures Do(Do(s, TrashDocument(d)), UntrashDocument(d)) == s
  {
    var before := s.documents[d];
    assert before.(workspace := before.workspace) == before;
    assert s.documents[d := before] == s.documents;
  }

  // ---- Deleting a folder ----

  /** No document is lost, and only those of the folder move, to where it was. */
  lemma DeletingLosesNoDocument(s: State, f: FolderId)
    requires Invariant(s) && f in s.folders && s.folders[f].live
    ensures var after := Do(s, DeleteFolder(f));
            && after.documents.Keys == s.documents.Keys
            && (forall d | d in s.documents ::
                  after.documents[d].workspace == s.documents[d].workspace && after.documents[d].trashed == s.documents[d].trashed
                  && after.documents[d].folder ==
                       if s.documents[d].folder == Some(f) then s.folders[f].parent else s.documents[d].folder)
            && (forall d | d in after.documents :: after.documents[d].folder != Some(f))
  {
    assert LiveOrNone(s, s.folders[f].parent, s.folders[f].workspace);
    var rank :| Ranked(s.folders, rank);
  }

  /** One folder goes; every other is as live as it was and stays where it was, or goes
      where the deleted one was. */
  lemma DeletingTakesOneFolder(s: State, f: FolderId)
    requires Invariant(s) && f in s.folders && s.folders[f].live
    ensures var after := Do(s, DeleteFolder(f));
            && after.folders.Keys == s.folders.Keys
            && forall g | g in s.folders ::
                 && (after.folders[g].live <==> s.folders[g].live && g != f)
                 && after.folders[g].workspace == s.folders[g].workspace
                 && (g != f && s.folders[g].live ==>
                       after.folders[g].parent != Some(f)
                       && after.folders[g].parent == if s.folders[g].parent == Some(f) then s.folders[f].parent else s.folders[g].parent)
  {
    NotItsOwnParent(s, f);
  }

  /** Every other live folder stays under exactly the folders it was under. */
  lemma {:induction false} DeletingKeepsAncestry(s: State, rank: map<FolderId, nat>, f: FolderId, g: FolderId, ancestor: FolderId)
    requires Invariant(s) && Ranked(s.folders, rank) && f in s.folders && s.folders[f].live
    requires g in s.folders && s.folders[g].live && g != f && ancestor != f
    ensures IsUnder(Lifted(s, f).folders, g, ancestor) <==> IsUnder(s.folders, g, ancestor)
    decreases rank[g]
  {
    var after := Lifted(s, f).folders;
    UnderStep(s.folders, g, ancestor);
    UnderStep(after, g, ancestor);
    assert LiveOrNone(s, s.folders[g].parent, s.folders[g].workspace);
    if s.folders[g].parent.Some? {
      var p := s.folders[g].parent.value;
      if p == f {
        UnderStep(s.folders, f, ancestor);
        assert LiveOrNone(s, s.folders[f].parent, s.folders[f].workspace);
        if s.folders[f].parent.Some? {
          DeletingKeepsAncestry(s, rank, f, s.folders[f].parent.value, ancestor);
        }
      } else {
        DeletingKeepsAncestry(s, rank, f, p, ancestor);
      }
    }
  }

  // ---- Why the check and the update are one step ----

  /** Moving a folder does not change what is above a folder that was not under it. */
  lemma {:induction false} OthersClimbAlike(
      folders: map<FolderId, Folder>, f: FolderId, parent: Option<FolderId>, at: FolderId, n: nat)
    requires f in folders && !IsUnder(folders, at, f)
    ensures Climb(SetParent(folders, f, parent), at, n) == Climb(folders, at, n)
    decreases n
  {
    if at in folders {
      UnderStep(folders, at, f);
      if n > 0 && folders[at].parent.Some? {
        OthersClimbAlike(folders, f, parent, folders[at].parent.value, n - 1);
      }
    }
  }

  lemma OthersUnderAlike(
      folders: map<FolderId, Folder>, f: FolderId, parent: Option<FolderId>, at: FolderId, ancestor: FolderId)
    requires f in folders && !IsUnder(folders, at, f)
    ensures IsUnder(SetParent(folders, f, parent), at, ancestor) <==> IsUnder(folders, at, ancestor)
  {
    forall n: nat
      ensures Climb(SetParent(folders, f, parent), at, n) == Climb(folders, at, n)
    {
      OthersClimbAlike(folders, f, parent, at, n);
    }
  }

  /** What was under the folder still is. */
  lemma {:induction false} StaysUnder(
      folders: map<FolderId, Folder>, f: FolderId, parent: Option<FolderId>, at: FolderId, n: nat)
    requires f in folders && Climb(folders, at, n) == Some(f)
    ensures IsUnder(SetParent(folders, f, parent), at, f)
    decreases n
  {
    var moved := SetParent(folders, f, parent);
    UnderStep(moved, at, f);
    if at != f { StaysUnder(folders, f, parent, folders[at].parent.value, n - 1); }
  }

  /** Once f has moved under p, the target q of the other move is below g exactly
      when it went along with f and p was below g, or was below g before. */
  lemma UnderAfterMove(s: State, f: FolderId, p: FolderId, q: FolderId, g: FolderId)
    requires Invariant(s) && MayMove(s, f, Some(p)) && q in s.folders && g in s.folders && f != g
    requires !IsUnder(s.folders, q, g)
    ensures IsUnder(SetParent(s.folders, f, Some(p)), q, g)
        <==> IsUnder(s.folders, q, f) && IsUnder(s.folders, p, g)
  {
    var folders := s.folders;
    if IsUnder(folders, q, f) {
      var n: nat :| Climb(folders, q, n) == Some(f);
      UnderThroughMoved(folders, f, p, q, g, n);
      OthersUnderAlike(folders, f, Some(p), p, g);
    } else {
      OthersUnderAlike(folders, f, Some(p), q, g);
    }
  }

  lemma {:induction false} UnderThroughMoved(
      folders: map<FolderId, Folder>, f: FolderId, p: FolderId, at: FolderId, g: FolderId, n: nat)
    requires f in folders && f != g && Climb(folders, at, n) == Some(f) && !IsUnder(folders, at, g)
    ensures IsUnder(SetParent(folders, f, Some(p)), at, g) <==> IsUnder(SetParent(folders, f, Some(p)), p, g)
    decreases n
  {
    var moved := SetParent(folders, f, Some(p));
    UnderStep(folders, at, g);
    UnderStep(moved, at, g);
    if at != f { UnderThroughMoved(folders, f, p, folders[at].parent.value, g, n - 1); }
  }

  /** A folder put under its own descendant closes a circle. */
  lemma CircleClosed(folders: map<FolderId, Folder>, g: FolderId, q: FolderId)
    requires g in folders && IsUnder(folders, q, g)
    ensures !Acyclic(SetParent(folders, g, Some(q)))
  {
    var both := SetParent(folders, g, Some(q));
    if Acyclic(both) {
      var n: nat :| Climb(folders, q, n) == Some(g);
      StaysUnder(folders, g, Some(q), q, n);
      var rank :| Ranked(both, rank);
      var m: nat :| Climb(both, q, m) == Some(g);
      ClimbDescends(both, rank, q, m);
    }
  }

  /** Two moves checked before either is made close a circle exactly when each
      folder goes into the branch of the other. */
  lemma SplitMovesCloseACycle(s: State, f: FolderId, parent: Option<FolderId>, g: FolderId, other: Option<FolderId>)
    requires Invariant(s) && MayMove(s, f, parent) && MayMove(s, g, other) && f != g
    ensures Acyclic(SetParent(SetParent(s.folders, f, parent), g, other))
        <==> !(parent.Some? && other.Some?
               && IsUnder(s.folders, other.value, f) && IsUnder(s.folders, parent.value, g))
  {
    MoveStaysAcyclic(s, f, parent);
    var moved := SetParent(s.folders, f, parent);
    if other.None? {
      var rank :| Ranked(moved, rank);
      assert Ranked(SetParent(moved, g, None), rank);
    } else {
      var q := other.value;
      if parent.Some? {
        UnderAfterMove(s, f, parent.value, q, g);
      } else {
        UnderAfterLift(s.folders, f, q, g);
      }
      if IsUnder(moved, q, g) { CircleClosed(moved, g, q); } else { GraftStaysAcyclic(moved, g, q); }
    }
  }

  /** A folder put to the top brings nothing under another. */
  lemma UnderAfterLift(folders: map<FolderId, Folder>, f: FolderId, q: FolderId, g: FolderId)
    requires f in folders && !IsUnder(folders, q, g)
    ensures !IsUnder(SetParent(folders, f, None), q, g)
  {
    if IsUnder(SetParent(folders, f, None), q, g) {
      var n: nat :| Climb(SetParent(folders, f, None), q, n) == Some(g);
      LiftedClimb(folders, f, q, g, n);
    }
  }

  lemma {:induction false} LiftedClimb(folders: map<FolderId, Folder>, f: FolderId, at: FolderId, g: FolderId, n: nat)
    requires f in folders && Climb(SetParent(folders, f, None), at, n) == Some(g)
    ensures Climb(folders, at, n) == Some(g)
    decreases n
  {
    if n > 0 { LiftedClimb(folders, f, folders[at].parent.value, g, n - 1); }
  }

  // ---- The statements ----

  class Shelves {
    var folders: map<FolderId, Folder>
    var documents: map<DocId, Document>

    function Contents(): State
      reads this
    {
      State(folders, documents)
    }

    method UpdateFolder(f: FolderId, parent: Option<FolderId>) returns (ok: bool)
      requires Invariant(Contents())
      modifies this`folders
      ensures Contents() == Do(old(Contents()), MoveFolder(f, parent)) && Invariant(Contents())
      ensures ok <==> MayMove(old(Contents()), f, parent)
    {
      ghost var s := Contents();
      ok := false;
      if f !in folders || !folders[f].live { return; }
      if parent.Some? {
        if parent.value == f || !LiveIn(Contents(), parent.value, folders[f].workspace) { return; }
        var descendant := FolderIsDescendant(folders, parent.value, f);
        if descendant { return; }
      }
      folders := folders[f := folders[f].(parent := parent)];
      ok := true;
      StepKeeps(s, MoveFolder(f, parent));
    }

    /** Documents, then child folders, then the folder itself. */
    method DeleteFolder(f: FolderId) returns (ok: bool)
      requires Invariant(Contents())
      modifies this
      ensures Contents() == Do(old(Contents()), Action.DeleteFolder(f)) && Invariant(Contents())
      ensures ok <==> f in old(folders) && old(folders)[f].live
    {
      ghost var s := Contents();
      StepKeeps(s, Action.DeleteFolder(f));
      ok := false;
      if f !in folders || !folders[f].live { return; }
      var parent := folders[f].parent;
      documents := map d | d in documents ::
        if documents[d].folder == Some(f) then documents[d].(folder := parent) else documents[d];
      folders := map g | g in folders ::
        if folders[g].parent == Some(f) && folders[g].live then folders[g].(parent := parent) else folders[g];
      assert folders[f].parent == parent by { NotItsOwnParent(s, f); }
      folders := folders[f := folders[f].(live := false)];
      ok := true;
    }

    method MoveDocument(d: DocId, target: Option<nat>, place: Option<Option<FolderId>>) returns (ok: bool)
      requires Invariant(Contents())
      modifies this`documents
      ensures Contents() == Do(old(Contents()), Action.MoveDocument(d, target, place)) && Invariant(Contents())
      ensures ok <==>
          && d in old(documents) && !old(documents)[d].trashed
          && (place.Some? && place.value.Some? ==>
                LiveIn(old(Contents()), place.value.value, if target.Some? then target.value else old(documents)[d].workspace))
    {
      ghost var s := Contents();
      StepKeeps(s, Action.MoveDocument(d, target, place));
      ok := false;
      if d !in documents || documents[d].trashed { return; }
      var workspace := documents[d].workspace;
      if target.Some? { workspace := target.value; }
      var folder := None;
      if place.Some? && place.value.Some? {
        if !LiveIn(Contents(), place.value.value, workspace) { return; }
        folder := place.value;
      }
      var clear := place.Some? || workspace != documents[d].workspace;
      documents := documents[d := documents[d].(
        workspace := workspace, folder := if clear then folder else documents[d].folder)];
      ok := true;
    }
  }

  lemma NotItsOwnParent(s: State, f: FolderId)
    requires Invariant(s) && f in s.folders
    ensures s.folders[f].parent != Some(f)
  {
    var rank :| Ranked(s.folders, rank);
  }
}
