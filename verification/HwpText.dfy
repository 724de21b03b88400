/** A paragraph's text in a Hangul file, with the positions the file counts by:
    "readParagraphText" of internal/hwp/text.go. Characters are UTF-16 code units. */
module HwpText {
  import opened Text

  newtype byte = x: int | 0 <= x < 256

  const CONTROL_WIDTH := 8
  const TAB := 9
  const FIELD_BEGIN := 3
  const FIELD_END := 4

  /** The marks written as eight units. */
  predicate Extended(code: nat) {
    code in {1, 2, 3, 11, 12, 14, 15, 16, 17, 18, 21, 22, 23} || code in {4, 5, 6, 7, 8, 9, 19, 20}
  }

  /** What a code below 32 stands for, if anything. */
  function Replacement(code: nat): Option<nat> {
    match code
    case 9 => Some(9)
    case 10 => Some(10)
    case 13 => Some(10)
    case 24 => Some(45)
    case 30 => Some(32)
    case 31 => Some(32)
    case _ => None
  }

  function Shown(code: nat): nat {
    if code < 32 && Replacement(code).Some? then Replacement(code).value else code
  }

  // ---- The paragraph as tokens ----

  datatype Token = Character(at: nat, code: nat) | Mark(at: nat, code: nat) | Silent(at: nat)

  function TokenAt(units: seq<nat>, i: nat): Token
    requires i < |units|
  {
    if units[i] >= 32 then Character(i, units[i])
    else if Extended(units[i]) then Mark(i, units[i])
    else if Replacement(units[i]).Some? then Character(i, units[i])
    else Silent(i)
  }

  function Width(token: Token): nat {
    if token.Mark? then CONTROL_WIDTH else 1
  }

  /** Each token with the position the file gives it. */
  function Tokens(units: seq<nat>, i: nat): seq<Token>
    decreases |units| - i
  {
    if i >= |units| then []
    else [TokenAt(units, i)] + Tokens(units, i + Width(TokenAt(units, i)))
  }

  // ---- What reading gives ----

  /** A character that is kept, and where it stands in the file. */
  datatype Placed = Placed(at: nat, shown: nat)

  datatype Piece = Piece(at: nat, text: seq<nat>)

  /** A field's text, from after its begin mark to its end mark if there is one. */
  datatype Field = Field(begin: nat, end: Option<nat>)

  /** The runs of characters finished and under way, the marks passed, the fields. */
  datatype Reading = Reading(runs: seq<seq<Placed>>, current: seq<Placed>, controls: nat, fields: seq<Field>)

  const NOTHING := Reading([], [], 0, [])

  /** The innermost field still open, searched from the end. */
  function CloseLast(fields: seq<Field>, at: nat): seq<Field> {
    if fields == [] then []
    else
      var n := |fields| - 1;
      if fields[n].end.None? then fields[..n] + [fields[n].(end := Some(at))]
      else CloseLast(fields[..n], at) + [fields[n]]
  }

  function FieldsAfter(fields: seq<Field>, token: Token): seq<Field> {
    if token.Mark? && token.code == FIELD_BEGIN then fields + [Field(token.at + CONTROL_WIDTH, None)]
    else if token.Mark? && token.code == FIELD_END then CloseLast(fields, token.at)
    else fields
  }

  function Closed(runs: seq<seq<Placed>>, current: seq<Placed>): seq<seq<Placed>> {
    if current == [] then runs else runs + [current]
  }

  function Take(r: Reading, token: Token): Reading {
    match token
    case Character(at, code) => r.(current := r.current + [Placed(at, Shown(code))])
    case Silent(at) => r
    case Mark(at, code) =>
      var runs := Closed(r.runs, r.current);
      Reading(if code == TAB then runs + [[Placed(at, Shown(code))]] else runs, [],
              if code == TAB then r.controls else r.controls + 1, FieldsAfter(r.fields, token))
  }

  function TakeAll(r: Reading, tokens: seq<Token>): Reading
    decreases |tokens|
  {
    if tokens == [] then r.(runs := Closed(r.runs, r.current), current := [])
    else TakeAll(Take(r, tokens[0]), tokens[1..])
  }

  function ReadUnits(units: seq<nat>): Reading {
    TakeAll(NOTHING, Tokens(units, 0))
  }

  function Letters(run: seq<Placed>): (r: seq<nat>)
    ensures |r| == |run| && forall i | 0 <= i < |r| :: r[i] == run[i].shown
  {
    seq(|run|, i requires 0 <= i < |run| => run[i].shown)
  }

  function PieceOf(run: seq<Placed>): Piece
    requires run != []
  {
    Piece(run[0].at, Letters(run))
  }

  ghost predicate NonEmpty(runs: seq<seq<Placed>>) {
    forall i | 0 <= i < |runs| :: runs[i] != []
  }

  function Pieces(runs: seq<seq<Placed>>): (r: seq<Piece>)
    requires NonEmpty(runs)
    ensures |r| == |runs| && forall i | 0 <= i < |r| :: r[i] == PieceOf(runs[i])
  {
    seq(|runs|, i requires 0 <= i < |runs| => PieceOf(runs[i]))
  }

  function Units(raw: seq<byte>): (r: seq<nat>)
    ensures |r| == |raw| / 2
    ensures forall i | 0 <= i < |r| :: r[i] == raw[2 * i] as nat + 256 * raw[2 * i + 1] as nat
  {
    seq(|raw| / 2, i requires 0 <= i < |raw| / 2 => raw[2 * i] as nat + 256 * raw[2 * i + 1] as nat)
  }

  // ---- The loop ----

  /** The inner search for the field an end mark closes. */
  method CloseField(fields: seq<Field>, at: nat) returns (r: seq<Field>)
    ensures r == CloseLast(fields, at)
  {
    r := fields;
    var index: nat := |fields|;
    assert fields[..index] == fields;
    while index > 0
      invariant 0 <= index <= |fields|
      invariant CloseLast(fields, at) == CloseLast(fields[..index], at) + fields[index..]
    {
      index := index - 1;
      assert fields[..index + 1][..index] == fields[..index];
      assert fields[index..] == [fields[index]] + fields[index + 1..];
      if fields[index].end.None? {
        r := fields[index := fields[index].(end := Some(at))];
        return;
      }
    }
  }

  /** The variables of the loop and what has been read. */
  ghost predicate Mirrors(pieces: seq<Piece>, pieceAt: nat, current: seq<nat>, controls: nat, fields: seq<Field>, r: Reading) {
    && NonEmpty(r.runs) && pieces == Pieces(r.runs)
    && current == Letters(r.current) && (current != [] ==> pieceAt == r.current[0].at)
    && controls == r.controls && fields == r.fields
  }

  method Flush(pieces: seq<Piece>, pieceAt: nat, current: seq<nat>, ghost r: Reading) returns (next: seq<Piece>)
    requires Mirrors(pieces, pieceAt, current, r.controls, r.fields, r)
    ensures NonEmpty(Closed(r.runs, r.current)) && next == Pieces(Closed(r.runs, r.current))
  {
    next := pieces;
    if |current| > 0 {
      assert Pieces(r.runs + [r.current]) == pieces + [PieceOf(r.current)];
      next := pieces + [Piece(pieceAt, current)];
    }
  }

  /** One turn of the loop. */
  method ReadUnit(
      code: nat, position: nat, pieces0: seq<Piece>, pieceAt0: nat, current0: seq<nat>, controls0: nat, fields0: seq<Field>,
      ghost units: seq<nat>, ghost r: Reading)
    returns (pieces: seq<Piece>, pieceAt: nat, current: seq<nat>, controls: nat, fields: seq<Field>, width: nat)
    requires position < |units| && code == units[position] && Mirrors(pieces0, pieceAt0, current0, controls0, fields0, r)
    ensures width == Width(TokenAt(units, position))
    ensures Mirrors(pieces, pieceAt, current, controls, fields, Take(r, TokenAt(units, position)))
  {
    hide Mirrors, Extended, Take;
    pieces, pieceAt, current, controls, fields, width := pieces0, pieceAt0, current0, controls0, fields0, 1;
    if code == FIELD_BEGIN {
      fields := fields + [Field(position + CONTROL_WIDTH, None)];
    } else if code == FIELD_END {
      fields := CloseField(fields, position);
    }
    FieldMarks(code);
    if code >= 32 || (Replacement(code).Some? && !Extended(code)) {
      if |current| == 0 { pieceAt := position; }
      CharacterMirrored(pieces, if |current| == 0 then pieceAt0 else pieceAt, current, controls, fields, r, position, code);
      current := current + [Shown(code)];
    } else if Extended(code) {
      Unmirrored(pieces, pieceAt, current, controls, fields0, r);
      pieces := Flush(pieces, pieceAt, current, r);
      current := [];
      MarkMirrored(pieces, controls, fields, r, position, code);
      if Replacement(code).Some? {
        pieces := pieces + [Piece(position, [Replacement(code).value])];
      } else {
        controls := controls + 1;
      }
      width := CONTROL_WIDTH;
      pieceAt := position + width;
    } else {
      SilentMirrored(pieces, pieceAt, current, controls, fields, r, position);
    }
  }

  /** The marks that fields begin and end with are extended, and of these only the tab
      stands for a character. */
  lemma FieldMarks(code: nat)
    ensures code == FIELD_BEGIN || code == FIELD_END ==> Extended(code) && Replacement(code).None?
    ensures Extended(code) ==> code < 32 && (Replacement(code).Some? <==> code == TAB)
  {
  }

  lemma CharacterMirrored(
      pieces: seq<Piece>, pieceAt: nat, current: seq<nat>, controls: nat, fields: seq<Field>, r: Reading, at: nat, code: nat)
    requires Mirrors(pieces, pieceAt, current, controls, fields, r)
    ensures Mirrors(pieces, if current == [] then at else pieceAt, current + [Shown(code)], controls, fields, Take(r, Character(at, code)))
  {
    hide Shown, Pieces;
  }

  lemma SilentMirrored(
      pieces: seq<Piece>, pieceAt: nat, current: seq<nat>, controls: nat, fields: seq<Field>, r: Reading, at: nat)
    requires Mirrors(pieces, pieceAt, current, controls, fields, r)
    ensures Mirrors(pieces, pieceAt, current, controls, fields, Take(r, Silent(at)))
  {
  }

  lemma MarkMirrored(pieces: seq<Piece>, controls: nat, fields: seq<Field>, r: Reading, at: nat, code: nat)
    requires NonEmpty(Closed(r.runs, r.current)) && pieces == Pieces(Closed(r.runs, r.current)) && controls == r.controls
    requires fields == FieldsAfter(r.fields, Mark(at, code)) && Extended(code)
    ensures var shown := Replacement(code).Some?;
            Mirrors(if shown then pieces + [Piece(at, [Replacement(code).value])] else pieces, at + CONTROL_WIDTH, [],
                    if shown then controls else controls + 1, fields, Take(r, Mark(at, code)))
  {
    hide FieldsAfter, Extended;
    FieldMarks(code);
    var runs := Closed(r.runs, r.current);
    if code == TAB {
      assert Letters([Placed(at, Shown(code))]) == [Shown(code)];
      assert Pieces(runs + [[Placed(at, Shown(code))]]) == Pieces(runs) + [Piece(at, [Shown(code)])];
    }
  }

  method ReadParagraphText(raw: seq<byte>) returns (pieces: seq<Piece>, controls: nat, fields: seq<Field>)
    ensures var read := ReadUnits(Units(raw));
            && NonEmpty(read.runs) && pieces == Pieces(read.runs)
            && controls == read.controls && fields == read.fields
  {
    hide Take, Mirrors;
    ghost var units := Units(raw);
    ghost var r := NOTHING;
    pieces, controls, fields := [], 0, [];
    var current: seq<nat> := [];
    var offset, position: nat, pieceAt: nat := 0, 0, 0;
    assert Mirrors(pieces, pieceAt, current, controls, fields, r) by { NothingMirrored(); }
    while offset + 2 <= |raw|
      invariant offset == 2 * position
      invariant TakeAll(r, Tokens(units, position)) == ReadUnits(units)
      invariant Mirrors(pieces, pieceAt, current, controls, fields, r)
      decreases |raw| - offset
    {
      var code := raw[offset] as nat + 256 * raw[offset + 1] as nat;
      ghost var token := TokenAt(units, position);
      assert Tokens(units, position)[1..] == Tokens(units, position + Width(token));
      var width;
      pieces, pieceAt, current, controls, fields, width := ReadUnit(code, position, pieces, pieceAt, current, controls, fields, units, r);
      r := Take(r, token);
      offset, position := offset + 2 * width, position + width;
    }
    Unmirrored(pieces, pieceAt, current, controls, fields, r);
    pieces := Flush(pieces, pieceAt, current, r);
  }

  lemma NothingMirrored()
    ensures Mirrors([], 0, [], 0, [], NOTHING)
  {
  }

  lemma Unmirrored(pieces: seq<Piece>, pieceAt: nat, current: seq<nat>, controls: nat, fields: seq<Field>, r: Reading)
    requires Mirrors(pieces, pieceAt, current, controls, fields, r)
    ensures Mirrors(pieces, pieceAt, current, r.controls, r.fields, r) && controls == r.controls && fields == r.fields
  {
  }
}
