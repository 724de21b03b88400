/** What the positions and the fields of a Hangul paragraph mean. */
module HwpPositions {
  import opened Text
  import opened HwpText

  // ---- Every kept character, once, in order, with its own place ----

  function Flat(runs: seq<seq<Placed>>): seq<Placed> {
    if runs == [] then [] else Flat(runs[..|runs| - 1]) + runs[|runs| - 1]
  }

  function KeptOf(token: Token): seq<Placed> {
    match token
    case Character(at, code) => [Placed(at, Shown(code))]
    case Mark(at, code) => if code == TAB then [Placed(at, Shown(code))] else []
    case Silent(_) => []
  }

  /** The characters a reader can keep, straight from the tokens. */
  function Kept(tokens: seq<Token>): seq<Placed> {
    if tokens == [] then [] else KeptOf(tokens[0]) + Kept(tokens[1..])
  }

  lemma FlatClosed(runs: seq<seq<Placed>>, current: seq<Placed>)
    ensures Flat(Closed(runs, current)) == Flat(runs) + current
  {
    assert (runs + [current])[..|runs|] == runs;
  }

  lemma TakeKeeps(r: Reading, token: Token)
    ensures Flat(Take(r, token).runs) + Take(r, token).current == Flat(r.runs) + r.current + KeptOf(token)
  {
    if token.Mark? {
      FlatClosed(r.runs, r.current);
      FlatClosed(Closed(r.runs, r.current), KeptOf(token));
    }
  }

  lemma {:induction false} NothingKeptIsLost(r: Reading, tokens: seq<Token>)
    ensures Flat(TakeAll(r, tokens).runs) == Flat(r.runs) + r.current + Kept(tokens)
    decreases |tokens|
  {
    if tokens == [] {
      FlatClosed(r.runs, r.current);
    } else {
      hide Take, KeptOf, Flat;
      TakeKeeps(r, tokens[0]);
      NothingKeptIsLost(Take(r, tokens[0]), tokens[1..]);
      assert Flat(r.runs) + r.current + (KeptOf(tokens[0]) + Kept(tokens[1..]))
          == Flat(r.runs) + r.current + KeptOf(tokens[0]) + Kept(tokens[1..]);
    }
  }

  /** Positions rise from one character to the next, within the paragraph. */
  ghost predicate Rising(placed: seq<Placed>, from: nat) {
    && (forall i, j | 0 <= i < j < |placed| :: placed[i].at < placed[j].at)
    && (forall i | 0 <= i < |placed| :: placed[i].at >= from)
  }

  ghost predicate ShownAt(placed: seq<Placed>, units: seq<nat>) {
    forall i | 0 <= i < |placed| :: placed[i].at < |units| && placed[i].shown == Shown(units[placed[i].at])
  }

  lemma {:induction false} KeptRises(units: seq<nat>, from: nat)
    ensures Rising(Kept(Tokens(units, from)), from) && ShownAt(Kept(Tokens(units, from)), units)
    decreases |units| - from
  {
    if from < |units| {
      var token := TokenAt(units, from);
      KeptRises(units, from + Width(token));
      assert Tokens(units, from)[1..] == Tokens(units, from + Width(token));
    }
  }

  /** All runs together are the characters kept, each with the code the file has at
      its place. */
  lemma ReadIsKept(units: seq<nat>)
    ensures Flat(ReadUnits(units).runs) == Kept(Tokens(units, 0))
    ensures Rising(Flat(ReadUnits(units).runs), 0) && ShownAt(Flat(ReadUnits(units).runs), units)
  {
    NothingKeptIsLost(NOTHING, Tokens(units, 0));
    KeptRises(units, 0);
    assert Flat([]) + [] + Kept(Tokens(units, 0)) == Kept(Tokens(units, 0));
  }

  // ---- Pieces ----

  lemma {:induction false} RunsInFlat(runs: seq<seq<Placed>>, i: nat)
    requires i < |runs|
    ensures Flat(runs) == Flat(runs[..i]) + runs[i] + Flat(runs[i + 1..])
    decreases |runs|
  {
    var n := |runs| - 1;
    if i < n {
      RunsInFlat(runs[..n], i);
      assert runs[..n][..i] == runs[..i] && runs[..n][i + 1..] == runs[i + 1..][..n - i - 1];
      assert runs[i + 1..][|runs[i + 1..]| - 1] == runs[n];
    } else {
      assert runs[i + 1..] == [];
    }
  }

  lemma {:induction false} RisingRun(run: seq<Placed>, k: nat)
    requires Rising(run, 0) && k < |run|
    ensures run[k].at >= run[0].at + k
  {
    if k > 0 { RisingRun(run, k - 1); }
  }

  /** A piece ends before the next one begins, in every paragraph. */
  lemma PiecesApart(units: seq<nat>, i: nat, j: nat)
    requires NonEmpty(ReadUnits(units).runs) && i < j < |ReadUnits(units).runs|
    ensures var pieces := Pieces(ReadUnits(units).runs);
            pieces[i].at + |pieces[i].text| <= pieces[j].at
  {
    var runs := ReadUnits(units).runs;
    ReadIsKept(units);
    RunsInFlat(runs, i);
    var flat, before, tail := Flat(runs), Flat(runs[..i]), Flat(runs[i + 1..]);
    RunsInFlat(runs[i + 1..], j - i - 1);
    var skipped := Flat(runs[i + 1..][..j - i - 1]);
    var last := |runs[i]| - 1;
    assert flat[|before| + last] == runs[i][last];
    assert flat[|before| + |runs[i]| + |skipped|] == runs[j][0];
    assert Rising(runs[i], 0) by {
      assert forall k | 0 <= k < |runs[i]| :: flat[|before| + k] == runs[i][k];
    }
    RisingRun(runs[i], last);
  }

  // ---- When a piece counts as the file does ----

  datatype Place = Outside | Inside | Doubtful

  function PlaceAfter(token: Token, place: Place): Place {
    if token.Mark? then Outside else if token.Character? then Inside else if place.Outside? then Outside else Doubtful
  }

  /** A silent code between two characters of one piece. */
  predicate Drifts(tokens: seq<Token>, place: Place)
    decreases |tokens|
  {
    tokens != [] && ((tokens[0].Character? && place.Doubtful?) || Drifts(tokens[1..], PlaceAfter(tokens[0], place)))
  }

  ghost predicate Steady(run: seq<Placed>) {
    forall k | 0 <= k < |run| :: run[k].at == run[0].at + k
  }

  ghost predicate AllSteady(runs: seq<seq<Placed>>) {
    forall i | 0 <= i < |runs| :: Steady(runs[i])
  }

  /** Where the reading stands: before, right after, or some way after a character. */
  ghost predicate Stands(current: seq<Placed>, place: Place, at: nat) {
    match place
    case Outside => current == []
    case Inside => current != [] && current[|current| - 1].at == at - 1
    case Doubtful => current != [] && current[|current| - 1].at < at - 1
  }

  lemma SteadyMore(current: seq<Placed>, at: nat, shown: nat)
    requires current != []
    ensures Steady(current + [Placed(at, shown)]) <==> Steady(current) && current[|current| - 1].at == at - 1
  {
    var more, n := current + [Placed(at, shown)], |current|;
    assert forall k | 0 <= k < n :: more[k] == current[k];
    assert more[n].at == at;
    assert Steady(more) ==> more[n].at == more[0].at + n && more[n - 1].at == more[0].at + n - 1;
    assert Steady(current) ==> current[n - 1].at == current[0].at + n - 1;
  }

  lemma AllSteadyClosed(runs: seq<seq<Placed>>, current: seq<Placed>)
    ensures AllSteady(Closed(runs, current)) <==> AllSteady(runs) && Steady(current)
  {
    var closed := Closed(runs, current);
    assert forall i | 0 <= i < |runs| :: closed[i] == runs[i];
    assert current != [] ==> closed[|runs|] == current;
  }

  lemma UnsteadyStays(r: Reading, tokens: seq<Token>)
    requires !AllSteady(r.runs) || !Steady(r.current)
    ensures !AllSteady(TakeAll(r, tokens).runs)
    decreases |tokens|
  {
    AllSteadyClosed(r.runs, r.current);
    if tokens != [] {
      var next := Take(r, tokens[0]);
      match tokens[0] {
        case Character(at, code) =>
          if !Steady(r.current) {
            assert forall k | 0 <= k < |r.current| :: next.current[k] == r.current[k];
          }
        case Mark(at, code) =>
          AllSteadyClosed(Closed(r.runs, r.current), if code == TAB then [Placed(at, Shown(code))] else []);
        case Silent(at) =>
      }
      UnsteadyStays(next, tokens[1..]);
    }
  }

  lemma OneIsSteady(at: nat, shown: nat)
    ensures Steady([Placed(at, shown)]) && Steady([])
    ensures forall runs :: Closed(runs, [Placed(at, shown)]) == runs + [[Placed(at, shown)]]
    ensures [] + [Placed(at, shown)] == [Placed(at, shown)]
  {
  }

  lemma SteadyStep(r: Reading, token: Token, place: Place)
    requires AllSteady(r.runs) && Steady(r.current) && Stands(r.current, place, token.at)
    ensures var next := Take(r, token);
            if token.Character? && place.Doubtful? then !Steady(next.current)
            else AllSteady(next.runs) && Steady(next.current)
                 && Stands(next.current, PlaceAfter(token, place), token.at + Width(token))
  {
    match token
    case Character(at, code) =>
      OneIsSteady(at, Shown(code));
      if place != Outside { SteadyMore(r.current, at, Shown(code)); }
    case Mark(at, code) =>
      AllSteadyClosed(r.runs, r.current);
      OneIsSteady(at, Shown(code));
      AllSteadyClosed(Closed(r.runs, r.current), [Placed(at, Shown(code))]);
    case Silent(at) =>
  }

  lemma {:induction false} SteadyUnlessDrifting(r: Reading, units: seq<nat>, at: nat, place: Place)
    requires AllSteady(r.runs) && Steady(r.current) && Stands(r.current, place, at)
    ensures AllSteady(TakeAll(r, Tokens(units, at)).runs) <==> !Drifts(Tokens(units, at), place)
    decreases |units| - at
  {
    hide Steady, AllSteady, Closed, Take, Stands;
    if at >= |units| {
      AllSteadyClosed(r.runs, r.current);
    } else {
      var token := TokenAt(units, at);
      var rest := Tokens(units, at + Width(token));
      assert Tokens(units, at)[1..] == rest;
      SteadyStep(r, token, place);
      if token.Character? && place.Doubtful? {
        UnsteadyStays(Take(r, token), rest);
      } else {
        SteadyUnlessDrifting(Take(r, token), units, at + Width(token), PlaceAfter(token, place));
      }
    }
  }

  /** A piece's letters stand at its start plus their offset in the file's own count. */
  ghost predicate Exact(units: seq<nat>) {
    AllSteady(ReadUnits(units).runs)
  }

  /** For every paragraph: the positions are right exactly when no silent code stands
      between two characters of one piece. */
  lemma ExactUnlessDrifting(units: seq<nat>)
    ensures Exact(units) <==> !Drifts(Tokens(units, 0), Outside)
  {
    SteadyUnlessDrifting(NOTHING, units, 0, Outside);
  }

  lemma {:induction false} NoSilenceNoDrift(tokens: seq<Token>, place: Place)
    requires (forall t | t in tokens :: !t.Silent?) && !place.Doubtful?
    ensures !Drifts(tokens, place)
    decreases |tokens|
  {
    if tokens != [] {
      NoSilenceNoDrift(tokens[1..], PlaceAfter(tokens[0], place));
    }
  }

  /** So every letter of every piece is the file's own at that place, in a paragraph
      without the codes 0 and 25 to 29. */
  lemma LettersWhereTheyStand(units: seq<nat>, i: nat, k: nat)
    requires forall u | u in units :: u != 0 && !(25 <= u <= 29)
    requires NonEmpty(ReadUnits(units).runs)
    requires i < |ReadUnits(units).runs| && k < |ReadUnits(units).runs[i]|
    ensures var piece := Pieces(ReadUnits(units).runs)[i];
            piece.at + k < |units| && piece.text[k] == Shown(units[piece.at + k])
  {
    var runs := ReadUnits(units).runs;
    NeverSilent(units, 0);
    NoSilenceNoDrift(Tokens(units, 0), Outside);
    ExactUnlessDrifting(units);
    ReadIsKept(units);
    RunsInFlat(runs, i);
    assert Flat(runs)[|Flat(runs[..i])| + k] == runs[i][k];
    assert Steady(runs[i]);
  }

  lemma {:induction false} NeverSilent(units: seq<nat>, at: nat)
    requires forall u | u in units :: u != 0 && !(25 <= u <= 29)
    ensures forall t | t in Tokens(units, at) :: !t.Silent?
    decreases |units| - at
  {
    if at < |units| {
      assert units[at] in units;
      NeverSilent(units, at + Width(TokenAt(units, at)));
    }
  }

  /** One silent code between two letters is enough, and one after the last does no harm. */
  lemma SilentCodeShifts()
    ensures !Exact([65, 0, 66]) && Exact([65, 66, 0])
  {
    var units := [65, 0, 66];
    assert Tokens(units, 1) == [Silent(1)] + Tokens(units, 2);
    assert Tokens(units, 1)[1..] == Tokens(units, 2);
    assert Drifts(Tokens(units, 2), Doubtful);
    assert Tokens(units, 0) == [Character(0, 65)] + Tokens(units, 1);
    assert Tokens(units, 0)[1..] == Tokens(units, 1);
    ExactUnlessDrifting(units);
    var after := [65, 66, 0];
    assert Tokens(after, 3) == [] && Tokens(after, 2) == [Silent(2)] && [Silent(2)][1..] == [];
    assert !Drifts([Silent(2)], Inside) by { assert !Drifts([], Doubtful); }
    assert Tokens(after, 1) == [Character(1, 66)] + Tokens(after, 2);
    assert Tokens(after, 1)[1..] == Tokens(after, 2);
    assert Tokens(after, 0) == [Character(0, 65)] + Tokens(after, 1);
    assert Tokens(after, 0)[1..] == Tokens(after, 1);
    ExactUnlessDrifting(after);
  }
}
