/** A document's history: creation, saves and restores of
    internal/httpapi/documents.go, the update of mcp.go, and the retention of old
    revisions in retention.go. */
module Revisions {
  import opened Text

  datatype Revision = Revision(content: int, name: Option<string>, created: int)

  /** One document with the rows of its history, by number. */
  datatype History = History(current: nat, content: int, rows: map<nat, Revision>)

  datatype Action =
    | Save(expected: nat, body: Option<int>, now: int)
    | McpUpdate(expected: nat, body: Option<int>, now: int)
    | Restore(number: nat, now: int)
    | Name(number: nat, name: Option<string>)
    | Retain(keep: nat, cutoff: int)

  function Created(content: int, now: int): History {
    History(1, content, map[1 := Revision(content, None, now)])
  }

  function Next(h: History, content: int, now: int): History {
    History(h.current + 1, content, h.rows[h.current + 1 := Revision(content, None, now)])
  }

  /** A save that names the revision it was made on is refused on any other. */
  predicate Accepts(h: History, expected: nat) {
    expected == 0 || expected == h.current
  }

  function Saved(h: History, body: Option<int>, now: int): History {
    if body.None? || body.value == h.content then h else Next(h, body.value, now)
  }

  // ---- Retention ----

  /** How far back a revision lies: one is the newest. */
  function Recency(numbers: set<nat>, n: nat): nat {
    |set m | m in numbers && m >= n|
  }

  /** Nothing but spaces. */
  predicate Unnamed(name: Option<string>) {
    name.None? || forall i | 0 <= i < |name.value| :: name.value[i] == ' '
  }

  predicate Expires(h: History, n: nat, keep: nat, cutoff: int)
    requires n in h.rows
  {
    h.rows[n].created < cutoff && Recency(h.rows.Keys, n) > keep && Unnamed(h.rows[n].name) && n != h.current
  }

  function Cleaned(h: History, keep: nat, cutoff: int): History {
    h.(rows := map n | n in h.rows && !Expires(h, n, keep, cutoff) :: h.rows[n])
  }

  function Do(h: History, a: Action): History {
    match a
    case Save(expected, body, now) => if Accepts(h, expected) then Saved(h, body, now) else h
    case McpUpdate(expected, body, now) => if expected == h.current && body.Some? then Next(h, body.value, now) else h
    case Restore(number, now) => if number in h.rows then Next(h, h.rows[number].content, now) else h
    case Name(number, name) => if number in h.rows then h.(rows := h.rows[number := h.rows[number].(name := name)]) else h
    case Retain(keep, cutoff) => Cleaned(h, keep, cutoff)
  }

  function Run(content: int, now: int, actions: seq<Action>): History {
    if actions == [] then Created(content, now) else Do(Run(content, now, actions[..|actions| - 1]), actions[|actions| - 1])
  }

  // ---- What every run keeps ----

  /** The current revision has its row, with the document's content, and is the newest. */
  predicate Sound(h: History) {
    h.current in h.rows && h.rows[h.current].content == h.content && forall n | n in h.rows :: 1 <= n <= h.current
  }

  lemma {:induction false} EveryRunIsSound(content: int, now: int, actions: seq<Action>)
    ensures Sound(Run(content, now, actions))
  {
    if actions != [] {
      EveryRunIsSound(content, now, actions[..|actions| - 1]);
    }
  }

  /** A new revision never meets a row of its number. */
  lemma NumbersAreFresh(content: int, now: int, actions: seq<Action>)
    ensures Run(content, now, actions).current + 1 !in Run(content, now, actions).rows
  {
    EveryRunIsSound(content, now, actions);
  }

  // ---- Saves made on an older state ----

  function After(h: History, actions: seq<Action>): History {
    if actions == [] then h else Do(After(h, actions[..|actions| - 1]), actions[|actions| - 1])
  }

  /** What makes a new revision. */
  lemma StepAdvances(h: History, a: Action)
    ensures var after := Do(h, a);
            && (after.current == h.current || after.current == h.current + 1)
            && (after.current == h.current ==> after.content == h.content)
            && (after.current == h.current + 1 <==>
                  || (a.Save? && (a.expected == 0 || a.expected == h.current) && a.body.Some? && a.body.value != h.content)
                  || (a.McpUpdate? && a.expected == h.current && a.body.Some?)
                  || (a.Restore? && a.number in h.rows))
  {
  }

  lemma {:induction false} CurrentGrows(h: History, actions: seq<Action>)
    ensures var later := After(h, actions);
            later.current >= h.current && (later.current == h.current ==> later.content == h.content)
  {
    if actions != [] {
      var n := |actions| - 1;
      CurrentGrows(h, actions[..n]);
      StepAdvances(After(h, actions[..n]), actions[n]);
    }
  }

  /** Whatever happens between opening a document and saving it: the save goes through
      if and only if no step in between made a new revision. Otherwise it changes
      nothing, however far behind it is. */
  lemma LateSavesAreRefused(h: History, meanwhile: seq<Action>, body: Option<int>, now: int)
    requires h.current > 0
    ensures var later := After(h, meanwhile);
            var end := Do(later, Save(h.current, body, now));
            && later.current >= h.current
            && (later.current > h.current ==> end == later && Do(later, McpUpdate(h.current, body, now)) == later)
            && (later.current == h.current && body.Some? && body.value != h.content ==>
                  && end.content == body.value && end.current == h.current + 1
                  && end.rows == later.rows[end.current := Revision(body.value, None, now)])
            && (later.current == h.current && (body.None? || body.value == h.content) ==> end == later)
  {
    CurrentGrows(h, meanwhile);
  }

  /** A save that names no revision always goes through, and never over a row. */
  lemma BlindSaves(h: History, body: int, now: int)
    requires Sound(h)
    ensures var after := Do(h, Save(0, Some(body), now));
            && after.content == body
            && (body != h.content ==> after.rows[h.current + 1] == Revision(body, None, now) && after.current == h.current + 1)
            && forall n | n in h.rows :: n in after.rows && after.rows[n] == h.rows[n]
  {
  }

  /** Of two saves made on the same revision only one goes through. */
  lemma NoLostUpdate(h: History, first: int, second: int, now: int, later: int)
    requires Sound(h) && first != h.content
    ensures var after := Do(h, Save(h.current, Some(first), now));
            after.content == first && Do(after, Save(h.current, Some(second), later)) == after
  {
  }

  /** Restoring brings the old content back as a new revision and loses none. */
  lemma RestoringAddsOnly(h: History, number: nat, now: int)
    requires Sound(h) && number in h.rows
    ensures var after := Do(h, Restore(number, now));
            && after.content == h.rows[number].content && after.current == h.current + 1
            && forall n | n in h.rows :: n in after.rows && after.rows[n] == h.rows[n]
  {
  }

  // ---- What retention leaves ----

  lemma RecencyFalls(more: set<nat>, fewer: set<nat>, n: nat)
    requires fewer <= more
    ensures Recency(fewer, n) <= Recency(more, n)
  {
    SubsetSize((set m | m in fewer && m >= n), (set m | m in more && m >= n));
  }

  /** A second pass under the same policy finds nothing. */
  lemma CleaningTwice(h: History, keep: nat, cutoff: int)
    ensures Cleaned(Cleaned(h, keep, cutoff), keep, cutoff) == Cleaned(h, keep, cutoff)
  {
    var once := Cleaned(h, keep, cutoff);
    forall n | n in once.rows
      ensures !Expires(once, n, keep, cutoff)
    {
      RecencyFalls(h.rows.Keys, once.rows.Keys, n);
    }
  }

  /** A stricter policy keeps nothing that a milder one removes. */
  lemma MilderKeepsMore(h: History, keep: nat, cutoff: int, strictKeep: nat, strictCutoff: int)
    requires strictKeep <= keep && cutoff <= strictCutoff
    ensures Cleaned(h, strictKeep, strictCutoff).rows.Keys <= Cleaned(h, keep, cutoff).rows.Keys
  {
  }

  lemma {:induction false} Smallest(numbers: set<nat>) returns (least: nat)
    requires numbers != {}
    ensures least in numbers && forall m | m in numbers :: least <= m
    decreases |numbers|
  {
    var some :| some in numbers;
    var others := numbers - {some};
    least := some;
    if others != {} {
      var next := Smallest(others);
      if next < some { least := next; }
    }
    assert forall m | m in numbers :: m == some || m in others;
  }

  function Newest(numbers: set<nat>, keep: nat): set<nat> {
    set n | n in numbers && Recency(numbers, n) <= keep
  }

  lemma WithoutLeast(numbers: set<nat>, least: nat, n: nat)
    requires least in numbers && (forall m | m in numbers :: least <= m) && n in numbers
    ensures Recency(numbers, n) == if n == least then |numbers| else Recency(numbers - {least}, n)
  {
    if n == least {
      assert (set m | m in numbers && m >= least) == numbers;
    } else {
      assert (set m | m in numbers && m >= n) == (set m | m in numbers - {least} && m >= n);
    }
  }

  /** The newest K are K, or all there are. */
  lemma {:induction false} NewestAreAsMany(numbers: set<nat>, keep: nat)
    ensures |Newest(numbers, keep)| == if |numbers| < keep then |numbers| else keep
    decreases |numbers|
  {
    if numbers == {} {
      assert Newest(numbers, keep) == {};
    } else {
      var least := Smallest(numbers);
      NewestAreAsMany(numbers - {least}, keep);
      NewestOfMore(numbers, least, keep);
      hide Newest;
      assert |numbers - {least}| == |numbers| - 1;
    }
  }

  /** The least number is among the newest only if all are. */
  lemma NewestOfMore(numbers: set<nat>, least: nat, keep: nat)
    requires least in numbers && forall m | m in numbers :: least <= m
    ensures Newest(numbers, keep) == Newest(numbers - {least}, keep) + if |numbers| <= keep then {least} else {}
    ensures least !in Newest(numbers - {least}, keep)
  {
    forall n | n in numbers {
      WithoutLeast(numbers, least, n);
    }
    hide Recency;
  }

  /** A history is never emptied by the clock: the newest K revisions, the named ones
      and the current one stay, as they were, and so at least K do or all there are. */
  lemma RetentionKeeps(h: History, keep: nat, cutoff: int)
    requires Sound(h)
    ensures var after := Cleaned(h, keep, cutoff);
            && Sound(after)
            && (forall n | n in after.rows :: n in h.rows && after.rows[n] == h.rows[n])
            && (forall n | n in h.rows && (n in Newest(h.rows.Keys, keep) || !Unnamed(h.rows[n].name) || n == h.current) ::
                  n in after.rows)
            && |after.rows| >= if |h.rows| < keep then |h.rows| else keep
  {
    var after := Cleaned(h, keep, cutoff);
    NewestAreAsMany(h.rows.Keys, keep);
    assert Newest(h.rows.Keys, keep) <= after.rows.Keys;
    SubsetSize(Newest(h.rows.Keys, keep), after.rows.Keys);
    assert |after.rows| == |after.rows.Keys| && |h.rows| == |h.rows.Keys|;
  }

  /** A revision is removed exactly when it is older than the cutoff, at least K newer
      ones exist, its name is missing or blank, and it is not the current one. */
  lemma RetentionExactly(h: History, keep: nat, cutoff: int, n: nat)
    requires n in h.rows
    ensures n !in Cleaned(h, keep, cutoff).rows <==>
        && h.rows[n].created < cutoff && n != h.current
        && |set m | m in h.rows && m > n| >= keep
        && (h.rows[n].name.None? || forall c | c in h.rows[n].name.value :: c == ' ')
  {
    var newer := set m | m in h.rows.Keys && m > n;
    if h.rows[n].name.Some? {
      var name := h.rows[n].name.value;
      assert forall i | 0 <= i < |name| :: name[i] in name;
    }
    assert (set m | m in h.rows.Keys && m >= n) == newer + {n};
    assert newer == set m | m in h.rows && m > n;
    assert |newer + {n}| == |newer| + 1;
  }

  /** Naming a revision changes nothing but its name, and a name keeps it. */
  lemma NamedRevisionsStay(h: History, n: nat, name: string, keep: nat, cutoff: int)
    requires n in h.rows && exists c :: c in name && c != ' '
    ensures var named := Do(h, Name(n, Some(name)));
            && named.current == h.current && named.content == h.content && named.rows.Keys == h.rows.Keys
            && (forall m | m in h.rows && m != n :: named.rows[m] == h.rows[m])
            && named.rows[n] == Revision(h.rows[n].content, Some(name), h.rows[n].created)
            && n in Cleaned(named, keep, cutoff).rows
  {
    var named := Do(h, Name(n, Some(name)));
    RetentionExactly(named, keep, cutoff, n);
  }

  // ---- The transactions ----

  class Store {
    var current: nat
    var content: int
    var rows: map<nat, Revision>

    function Contents(): History
      reads this
    {
      History(current, content, rows)
    }

    constructor (content: int, now: int)
      ensures Contents() == Created(content, now) && Sound(Contents())
    {
      current, this.content, rows := 1, content, map[1 := Revision(content, None, now)];
    }

    /** The update of the row and the insert of the revision, if the content changed. */
    method UpdateDocument(expected: nat, body: Option<int>, now: int) returns (ok: bool)
      requires Sound(Contents())
      modifies this
      ensures Contents() == Do(old(Contents()), Save(expected, body, now)) && Sound(Contents())
      ensures ok <==> expected == 0 || expected == old(current)
      ensures !ok ==> Contents() == old(Contents())
      ensures ok && body.Some? ==> content == body.value
    {
      ok := false;
      if expected > 0 && current != expected { return; }
      var changed := body.Some? && body.value != content;
      if body.Some? { content := body.value; }
      var next := current;
      if changed { next := next + 1; }
      current := next;
      if changed {
        rows := rows[next := Revision(content, None, now)];
      }
      ok := true;
    }

    method RestoreRevision(number: nat, now: int) returns (ok: bool)
      requires Sound(Contents())
      modifies this
      ensures Contents() == Do(old(Contents()), Restore(number, now)) && Sound(Contents())
      ensures ok <==> number in old(rows)
    {
      ok := number in rows;
      if ok {
        content := rows[number].content;
        current := current + 1;
        rows := rows[current := Revision(content, None, now)];
      }
    }
  }
}
