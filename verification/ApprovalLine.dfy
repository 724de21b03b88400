/** "buildApprovalLine" of internal/httpapi/approval_line.go. */
module ApprovalLine {
  import opened Text

  type User = nat

  /** The id no user has. */
  const NOBODY: User := 0
  const MAX_STEPS := 10

  datatype Step = Step(approver: User, isFinal: bool)

  datatype Outcome = Line(steps: seq<Step>) | Refused

  predicate Distinct(approvers: seq<User>) {
    forall i, j | 0 <= i < j < |approvers| :: approvers[i] != approvers[j]
  }

  /** What makes a list of approvers a line; "readers" are the active users who may
      open the document. */
  predicate Acceptable(approvers: seq<User>, finalAt: int, requester: User, allowSelf: bool, readers: set<User>) {
    && |approvers| <= MAX_STEPS && 0 <= finalAt <= |approvers|
    && NOBODY !in approvers && Distinct(approvers)
    && (allowSelf || requester !in approvers)
    && forall a | a in approvers :: a in readers
  }

  /** One step settles the line: the one asked for, or else the last. */
  function FinalPosition(count: nat, finalAt: int): int {
    if finalAt > 0 then finalAt else count
  }

  function Steps(approvers: seq<User>, finalAt: int): (r: seq<Step>)
    ensures |r| == |approvers|
    ensures forall i | 0 <= i < |r| :: r[i] == Step(approvers[i], i + 1 == FinalPosition(|approvers|, finalAt))
  {
    seq(|approvers|, i requires 0 <= i < |approvers| => Step(approvers[i], i + 1 == FinalPosition(|approvers|, finalAt)))
  }

  function Built(approvers: seq<User>, finalAt: int, requester: User, allowSelf: bool, readers: set<User>): Outcome {
    if approvers == [] then Line([])
    else if Acceptable(approvers, finalAt, requester, allowSelf, readers) then Line(Steps(approvers, finalAt))
    else Refused
  }

  /** Every line that is built can be finished by exactly one of its people, each of
      whom is asked once. */
  lemma BuiltLineEnds(approvers: seq<User>, finalAt: int, requester: User, allowSelf: bool, readers: set<User>)
    requires Built(approvers, finalAt, requester, allowSelf, readers).Line?
    ensures var steps := Built(approvers, finalAt, requester, allowSelf, readers).steps;
            && (forall i, j | 0 <= i < j < |steps| :: steps[i].approver != steps[j].approver)
            && (steps != [] ==> exists i | 0 <= i < |steps| :: steps[i].isFinal)
            && (forall i, j | 0 <= i < |steps| && 0 <= j < |steps| && steps[i].isFinal && steps[j].isFinal :: i == j)
            && (!allowSelf ==> forall i | 0 <= i < |steps| :: steps[i].approver != requester)
  {
    var steps := Built(approvers, finalAt, requester, allowSelf, readers).steps;
    if approvers != [] {
      assert steps[FinalPosition(|approvers|, finalAt) - 1].isFinal;
      assert forall i | 0 <= i < |steps| :: approvers[i] in approvers;
    }
  }

  /** A list is refused for its length, a final position outside it, a missing person, one
      who may not read the document or stands there twice, or the requester where
      requesters may not decide. */
  lemma RefusedExactly(approvers: seq<User>, finalAt: int, requester: User, allowSelf: bool, readers: set<User>)
    ensures Built(approvers, finalAt, requester, allowSelf, readers).Refused? <==>
        && approvers != []
        && (|approvers| > 10 || finalAt < 0 || finalAt > |approvers|
            || (exists i :: 0 <= i < |approvers| && (approvers[i] == NOBODY || approvers[i] !in readers))
            || (exists i, j :: 0 <= i < j < |approvers| && approvers[i] == approvers[j])
            || (!allowSelf && exists i :: 0 <= i < |approvers| && approvers[i] == requester))
  {
  }

  /** The first pass: nobody missing, nobody twice, not the requester. */
  method CheckList(approvers: seq<User>, requester: User, allowSelf: bool) returns (ok: bool)
    ensures ok <==> NOBODY !in approvers && Distinct(approvers) && (allowSelf || requester !in approvers)
  {
    var seen := {};
    var k := 0;
    while k < |approvers|
      invariant k <= |approvers|
      invariant seen == set i | 0 <= i < k :: approvers[i]
      invariant NOBODY !in approvers[..k] && Distinct(approvers[..k]) && (allowSelf || requester !in approvers[..k])
    {
      var approver := approvers[k];
      assert approver in approvers;
      if approver == NOBODY { return false; }
      if approver in seen {
        var i :| 0 <= i < k && approvers[i] == approver;
        assert !Distinct(approvers);
        return false;
      }
      seen := seen + {approver};
      if approver == requester && !allowSelf { return false; }
      assert approvers[..k + 1] == approvers[..k] + [approver];
      k := k + 1;
    }
    assert approvers[..k] == approvers;
    ok := true;
  }

  method BuildApprovalLine(approvers: seq<User>, finalAt: int, requester: User, allowSelf: bool, readers: set<User>)
    returns (outcome: Outcome)
    ensures outcome == Built(approvers, finalAt, requester, allowSelf, readers)
    ensures outcome.Refused? <==>
        && approvers != []
        && (|approvers| > 10 || finalAt < 0 || finalAt > |approvers|
            || (exists i :: 0 <= i < |approvers| && (approvers[i] == NOBODY || approvers[i] !in readers))
            || (exists i, j :: 0 <= i < j < |approvers| && approvers[i] == approvers[j])
            || (!allowSelf && exists i :: 0 <= i < |approvers| && approvers[i] == requester))
  {
    RefusedExactly(approvers, finalAt, requester, allowSelf, readers);
    if |approvers| == 0 { return Line([]); }
    if |approvers| > MAX_STEPS || finalAt < 0 || finalAt > |approvers| { return Refused; }
    var ok := CheckList(approvers, requester, allowSelf);
    if !ok { return Refused; }
    var line := [];
    var k := 0;
    while k < |approvers|
      invariant k <= |approvers| && |line| == k
      invariant forall i | 0 <= i < k ::
          approvers[i] in readers && line[i] == Step(approvers[i], i + 1 == FinalPosition(|approvers|, finalAt))
    {
      if approvers[k] !in readers { return Refused; }
      var isFinal := k + 1 == |approvers|;
      if finalAt > 0 { isFinal := k + 1 == finalAt; }
      line := line + [Step(approvers[k], isFinal)];
      k := k + 1;
    }
    assert line[FinalPosition(|approvers|, finalAt) - 1].isFinal;
    line := EnsureFinal(line);
    outcome := Line(line);
  }

  /** The last guard: a line that nobody could finish ends with its last person. */
  method EnsureFinal(line: seq<Step>) returns (r: seq<Step>)
    requires line != []
    ensures r == if exists i | 0 <= i < |line| :: line[i].isFinal then line
                 else line[|line| - 1 := line[|line| - 1].(isFinal := true)]
  {
    r := line;
    var hasFinal := false;
    var k := 0;
    while k < |line|
      invariant k <= |line|
      invariant hasFinal <==> exists i | 0 <= i < k :: line[i].isFinal
    {
      if line[k].isFinal { hasFinal := true; }
      k := k + 1;
    }
    if !hasFinal {
      r := line[|line| - 1 := line[|line| - 1].(isFinal := true)];
    }
  }
}
