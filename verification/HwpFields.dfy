/** Fields of a Hangul paragraph are matched as brackets: the search from the end of
    the list finds what a bracket count from the front finds. */
module HwpFields {
  import opened Text
  import opened HwpText

  predicate Begins(token: Token) { token.Mark? && token.code == FIELD_BEGIN }

  predicate Ends(token: Token) { token.Mark? && token.code == FIELD_END }

  /** Where a field that is open "depth" fields deep is closed. */
  function ClosingAt(tokens: seq<Token>, depth: nat): Option<nat>
    decreases |tokens|
  {
    if tokens == [] then None
    else if Begins(tokens[0]) then ClosingAt(tokens[1..], depth + 1)
    else if Ends(tokens[0]) then if depth == 0 then Some(tokens[0].at) else ClosingAt(tokens[1..], depth - 1)
    else ClosingAt(tokens[1..], depth)
  }

  /** Every begin mark, in order, with the end mark that balances it. */
  function Matched(tokens: seq<Token>): seq<Field>
    decreases |tokens|
  {
    if tokens == [] then []
    else if Begins(tokens[0]) then [Field(tokens[0].at + CONTROL_WIDTH, ClosingAt(tokens[1..], 0))] + Matched(tokens[1..])
    else Matched(tokens[1..])
  }

  /** What becomes of fields already begun; "depth" counts the open ones after them. */
  function Settled(fields: seq<Field>, tokens: seq<Token>, depth: nat): seq<Field> {
    if fields == [] then []
    else
      var n := |fields| - 1;
      var open := fields[n].end.None?;
      Settled(fields[..n], tokens, if open then depth + 1 else depth)
      + [if open then fields[n].(end := ClosingAt(tokens, depth)) else fields[n]]
  }

  lemma {:induction false} SettledNothing(fields: seq<Field>, depth: nat)
    ensures Settled(fields, [], depth) == fields
  {
    if fields != [] {
      var n := |fields| - 1;
      SettledNothing(fields[..n], if fields[n].end.None? then depth + 1 else depth);
    }
  }

  /** A token that is no end mark only changes the depth. */
  lemma {:induction false} SettledOn(fields: seq<Field>, tokens: seq<Token>, depth: nat)
    requires tokens != [] && !Ends(tokens[0])
    ensures Settled(fields, tokens, depth) == Settled(fields, tokens[1..], if Begins(tokens[0]) then depth + 1 else depth)
  {
    if fields != [] {
      var n := |fields| - 1;
      SettledOn(fields[..n], tokens, if fields[n].end.None? then depth + 1 else depth);
    }
  }

  lemma {:induction false} SettledPastEnd(fields: seq<Field>, tokens: seq<Token>, depth: nat)
    requires tokens != [] && Ends(tokens[0])
    ensures Settled(fields, tokens, depth + 1) == Settled(fields, tokens[1..], depth)
  {
    if fields != [] {
      var n := |fields| - 1;
      SettledPastEnd(fields[..n], tokens, if fields[n].end.None? then depth + 1 else depth);
    }
  }

  lemma {:induction false} SettledAtEnd(fields: seq<Field>, tokens: seq<Token>)
    requires tokens != [] && Ends(tokens[0])
    ensures Settled(CloseLast(fields, tokens[0].at), tokens[1..], 0) == Settled(fields, tokens, 0)
  {
    if fields != [] {
      var n := |fields| - 1;
      var closed := CloseLast(fields, tokens[0].at);
      if fields[n].end.None? {
        SettledPastEnd(fields[..n], tokens, 0);
        assert closed[..n] == fields[..n];
      } else {
        SettledAtEnd(fields[..n], tokens);
        CloseLastSize(fields[..n], tokens[0].at);
        assert closed[..n] == CloseLast(fields[..n], tokens[0].at);
      }
    }
  }

  lemma {:induction false} CloseLastSize(fields: seq<Field>, at: nat)
    ensures |CloseLast(fields, at)| == |fields|
  {
    if fields != [] { CloseLastSize(fields[..|fields| - 1], at); }
  }

  lemma {:induction false} FieldsSettle(r: Reading, tokens: seq<Token>)
    ensures TakeAll(r, tokens).fields == Settled(r.fields, tokens, 0) + Matched(tokens)
    decreases |tokens|
  {
    if tokens == [] {
      SettledNothing(r.fields, 0);
    } else {
      var token := tokens[0];
      var next := Take(r, token);
      FieldsSettle(next, tokens[1..]);
      if Ends(token) {
        SettledAtEnd(r.fields, tokens);
      } else {
        SettledOn(r.fields, tokens, 0);
        if Begins(token) {
          var begun := Field(token.at + CONTROL_WIDTH, None);
          assert next.fields == r.fields + [begun] && next.fields[..|r.fields|] == r.fields;
          assert Settled(next.fields, tokens[1..], 0)
              == Settled(r.fields, tokens[1..], 1) + [begun.(end := ClosingAt(tokens[1..], 0))];
        }
      }
    }
  }

  /** The fields read are the begin marks, each with its balancing end. */
  lemma FieldsAreBrackets(units: seq<nat>)
    ensures ReadUnits(units).fields == Matched(Tokens(units, 0))
  {
    FieldsSettle(NOTHING, Tokens(units, 0));
    assert [] + Matched(Tokens(units, 0)) == Matched(Tokens(units, 0));
  }

  // ---- So they nest ----

  lemma {:induction false} ClosingLater(units: seq<nat>, at: nat, depth: nat)
    ensures var closing := ClosingAt(Tokens(units, at), depth); closing.Some? ==> closing.value >= at
    decreases |units| - at
  {
    if at < |units| {
      var token := TokenAt(units, at);
      assert Tokens(units, at)[1..] == Tokens(units, at + Width(token));
      if !(Ends(token) && depth == 0) {
        ClosingLater(units, at + Width(token), if Begins(token) then depth + 1 else if Ends(token) then depth - 1 else depth);
      }
    }
  }

  lemma {:induction false} MatchedLater(units: seq<nat>, at: nat)
    ensures forall f | f in Matched(Tokens(units, at)) :: f.begin >= at + CONTROL_WIDTH
    decreases |units| - at
  {
    if at < |units| {
      var token := TokenAt(units, at);
      assert Tokens(units, at)[1..] == Tokens(units, at + Width(token));
      MatchedLater(units, at + Width(token));
    }
  }

  /** A deeper field is closed no later than the ones around it. */
  lemma {:induction false} DeeperClosesFirst(units: seq<nat>, at: nat, deep: nat, depth: nat)
    requires deep < depth
    ensures var outer := ClosingAt(Tokens(units, at), depth);
            var inner := ClosingAt(Tokens(units, at), deep);
            outer.Some? ==> inner.Some? && inner.value < outer.value
    decreases |units| - at
  {
    if at < |units| {
      var token := TokenAt(units, at);
      var next := at + Width(token);
      assert Tokens(units, at)[1..] == Tokens(units, next);
      if Ends(token) {
        if deep == 0 {
          ClosingLater(units, next, depth - 1);
        } else {
          DeeperClosesFirst(units, next, deep - 1, depth - 1);
        }
      } else {
        DeeperClosesFirst(units, next, if Begins(token) then deep + 1 else deep, if Begins(token) then depth + 1 else depth);
      }
    }
  }

  /** Fields begun before an enclosing one is closed are closed before it is. */
  lemma {:induction false} InnerClosesFirst(units: seq<nat>, at: nat, depth: nat)
    ensures var closing := ClosingAt(Tokens(units, at), depth);
            closing.Some? ==> forall f | f in Matched(Tokens(units, at)) && f.begin <= closing.value ::
              f.end.Some? && f.end.value < closing.value
    decreases |units| - at
  {
    if at < |units| {
      var token := TokenAt(units, at);
      var next := at + Width(token);
      assert Tokens(units, at)[1..] == Tokens(units, next);
      if Begins(token) {
        InnerClosesFirst(units, next, depth + 1);
        DeeperClosesFirst(units, next, 0, depth + 1);
      } else if Ends(token) {
        MatchedLater(units, next);
        if depth > 0 { InnerClosesFirst(units, next, depth - 1); }
      } else {
        InnerClosesFirst(units, next, depth);
      }
    }
  }

  /** In every paragraph: of two fields, the later lies inside the earlier, or begins
      after it is closed, or the earlier is never closed. */
  lemma {:induction false} FieldsNestFrom(units: seq<nat>, at: nat, i: nat, j: nat)
    requires i < j < |Matched(Tokens(units, at))|
    ensures var fields := Matched(Tokens(units, at));
            && fields[i].begin < fields[j].begin
            && (fields[i].end.Some? && fields[j].begin <= fields[i].end.value ==>
                  fields[j].end.Some? && fields[j].end.value < fields[i].end.value)
    decreases |units| - at
  {
    if at < |units| {
      var token := TokenAt(units, at);
      var next := at + Width(token);
      assert Tokens(units, at)[1..] == Tokens(units, next);
      var rest := Matched(Tokens(units, next));
      if Begins(token) {
        var fields := Matched(Tokens(units, at));
        assert forall k | 0 < k < |fields| :: fields[k] == rest[k - 1];
        if i > 0 {
          FieldsNestFrom(units, next, i - 1, j - 1);
        } else {
          MatchedLater(units, next);
          InnerClosesFirst(units, next, 0);
          assert rest[j - 1] in rest;
        }
      } else {
        FieldsNestFrom(units, next, i, j);
      }
    }
  }

  lemma FieldsNest(units: seq<nat>, i: nat, j: nat)
    requires i < j < |ReadUnits(units).fields|
    ensures var fields := ReadUnits(units).fields;
            && fields[i].begin < fields[j].begin
            && (fields[i].end.Some? && fields[j].begin <= fields[i].end.value ==>
                  fields[j].end.Some? && fields[j].end.value < fields[i].end.value)
  {
    FieldsAreBrackets(units);
    FieldsNestFrom(units, 0, i, j);
  }
}
