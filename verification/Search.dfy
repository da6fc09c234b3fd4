/** Forward search with wrap-around, as the editor's `/` and `n` use it. */
module Search {
  import opened Common
  import opened TextBuffer

  /** The query stands in the line at column `c`. */
  predicate At(line: string, q: string, c: nat) {
    c + |q| <= |line| && line[c..c + |q|] == q
  }

  /** The first column at or after `from` where the query stands. */
  function FirstIn(line: string, q: string, from: nat): (hit: Option<nat>)
    ensures hit.Some? ==>
              && from <= hit.value && At(line, q, hit.value)
              && forall c :: from <= c < hit.value ==> !At(line, q, c)
    ensures hit.None? ==> forall c :: from <= c ==> !At(line, q, c)
    decreases |line| + 1 - from
  {
    if from > |line| then None
    else if At(line, q, from) then Some(from)
    else FirstIn(line, q, from + 1)
  }

  ghost predicate Occurs(lines: Lines, q: string, p: Position) {
    p.row < |lines| && At(lines[p.row], q, p.col)
  }

  /** Reading order. */
  predicate Precedes(a: Position, b: Position) {
    a.row < b.row || (a.row == b.row && a.col < b.col)
  }

  /** The first occurrence in the rows from `row` up to `end`. */
  function FirstInRows(lines: Lines, q: string, row: nat, end: nat): (hit: Option<Position>)
    requires end <= |lines|
    ensures hit.Some? ==>
              && row <= hit.value.row < end && Occurs(lines, q, hit.value)
              && forall p: Position :: row <= p.row < end && Precedes(p, hit.value) ==> !Occurs(lines, q, p)
    ensures hit.None? ==> forall p: Position :: row <= p.row < end ==> !Occurs(lines, q, p)
    decreases end - row
  {
    if row >= end then None
    else
      match FirstIn(lines[row], q, 0)
      case Some(c) => Some(Position(row, c))
      case None => FirstInRows(lines, q, row + 1, end)
  }

  /** Where a search starts: at the cursor, or one column on when repeating the last search. */
  function StartColumn(cursor: Position, repeat: bool): nat {
    if repeat then cursor.col + 1 else cursor.col
  }

  function FindNext(lines: Lines, cursor: Position, q: string, repeat: bool): Option<Position>
    requires cursor.row < |lines|
  {
    var here := FirstIn(lines[cursor.row], q, StartColumn(cursor, repeat));
    if here.Some? then Some(Position(cursor.row, here.value))
    else
      var below := FirstInRows(lines, q, cursor.row + 1, |lines|);
      if below.Some? then below
      else
        var above := FirstInRows(lines, q, 0, cursor.row);
        if above.Some? then above
        else if !repeat then None
        else
          var line := lines[cursor.row];
          var before := FirstIn(line[..Min(cursor.col, |line|)], q, 0);
          if before.Some? then Some(Position(cursor.row, before.value)) else None
  }

  /** The three places a search looks, in this order; the last only when repeating. */
  datatype Region = Ahead | Above | WhollyBefore

  ghost predicate In(region: Region, cursor: Position, q: string, repeat: bool, p: Position) {
    match region
    case Ahead => Precedes(cursor, p) || (!repeat && p == cursor)
    case Above => p.row < cursor.row
    case WhollyBefore => repeat && p.row == cursor.row && p.col + |q| <= cursor.col
  }

  ghost predicate Barren(lines: Lines, region: Region, cursor: Position, q: string, repeat: bool) {
    forall p: Position :: In(region, cursor, q, repeat, p) ==> !Occurs(lines, q, p)
  }

  /** The first occurrence of the region in reading order. */
  ghost predicate FirstWithin(lines: Lines, region: Region, cursor: Position, q: string, repeat: bool, hit: Position) {
    && In(region, cursor, q, repeat, hit)
    && Occurs(lines, q, hit)
    && forall p: Position :: In(region, cursor, q, repeat, p) && Precedes(p, hit) ==> !Occurs(lines, q, p)
  }

  /** What a search must answer: the first occurrence of the first region that has one. */
  ghost predicate Answers(lines: Lines, cursor: Position, q: string, repeat: bool, answer: Option<Position>) {
    if !Barren(lines, Ahead, cursor, q, repeat) then
      answer.Some? && FirstWithin(lines, Ahead, cursor, q, repeat, answer.value)
    else if !Barren(lines, Above, cursor, q, repeat) then
      answer.Some? && FirstWithin(lines, Above, cursor, q, repeat, answer.value)
    else if !Barren(lines, WhollyBefore, cursor, q, repeat) then
      answer.Some? && FirstWithin(lines, WhollyBefore, cursor, q, repeat, answer.value)
    else
      answer == None
  }

  lemma AtInPrefix(line: string, q: string, n: nat, c: nat)
    requires n <= |line|
    ensures At(line[..n], q, c) <==> At(line, q, c) && c + |q| <= n
  {
  }

  lemma SearchAhead(lines: Lines, cursor: Position, q: string, repeat: bool)
    requires cursor.row < |lines|
    ensures var here := FirstIn(lines[cursor.row], q, StartColumn(cursor, repeat));
            var below := FirstInRows(lines, q, cursor.row + 1, |lines|);
            && (here.Some? ==> FirstWithin(lines, Ahead, cursor, q, repeat, Position(cursor.row, here.value)))
            && (here.None? && below.Some? ==> FirstWithin(lines, Ahead, cursor, q, repeat, below.value))
            && (Barren(lines, Ahead, cursor, q, repeat) <==> here.None? && below.None?)
  {
    var here := FirstIn(lines[cursor.row], q, StartColumn(cursor, repeat));
    var below := FirstInRows(lines, q, cursor.row + 1, |lines|);
    if here.Some? {
      assert FirstWithin(lines, Ahead, cursor, q, repeat, Position(cursor.row, here.value));
    }
  }

  lemma SearchAbove(lines: Lines, cursor: Position, q: string, repeat: bool)
    requires cursor.row < |lines|
    ensures var above := FirstInRows(lines, q, 0, cursor.row);
            && (above.Some? ==> FirstWithin(lines, Above, cursor, q, repeat, above.value))
            && (Barren(lines, Above, cursor, q, repeat) <==> above.None?)
  {
  }

  lemma SearchBefore(lines: Lines, cursor: Position, q: string)
    requires InText(lines, cursor)
    ensures var before := FirstIn(lines[cursor.row][..cursor.col], q, 0);
            && (before.Some? ==> FirstWithin(lines, WhollyBefore, cursor, q, true, Position(cursor.row, before.value)))
            && (Barren(lines, WhollyBefore, cursor, q, true) <==> before.None?)
  {
    var line := lines[cursor.row];
    forall c: nat ensures At(line[..cursor.col], q, c) <==> At(line, q, c) && c + |q| <= cursor.col {
      AtInPrefix(line, q, cursor.col, c);
    }
    var before := FirstIn(line[..cursor.col], q, 0);
    if before.Some? {
      assert FirstWithin(lines, WhollyBefore, cursor, q, true, Position(cursor.row, before.value));
    }
  }

  /**
    The search answers with the first occurrence at or after its start; failing
    that with the first in the rows above; failing that, when repeating, with the
    first wholly before the cursor on its row; and with nothing exactly when none
    of these holds the query.
   */
  lemma FindNextAnswers(lines: Lines, cursor: Position, q: string, repeat: bool)
    requires InText(lines, cursor)
    ensures Answers(lines, cursor, q, repeat, FindNext(lines, cursor, q, repeat))
  {
    SearchAhead(lines, cursor, q, repeat);
    SearchAbove(lines, cursor, q, repeat);
    SearchBefore(lines, cursor, q);
  }

  /** One answer only: the requirement leaves the search no choice. */
  lemma AnswerIsUnique(lines: Lines, cursor: Position, q: string, repeat: bool, a: Option<Position>, b: Option<Position>)
    requires Answers(lines, cursor, q, repeat, a) && Answers(lines, cursor, q, repeat, b)
    ensures a == b
  {
  }

  /** The search loops: forward from the start, then the rows above, then the cursor's row. */
  method Find(lines: Lines, cursor: Position, q: string, repeat: bool) returns (hit: Option<Position>)
    requires InText(lines, cursor) && q != ""
    ensures hit == FindNext(lines, cursor, q, repeat)
    ensures Answers(lines, cursor, q, repeat, hit)
  {
    FindNextAnswers(lines, cursor, q, repeat);
    var row, col := cursor.row, StartColumn(cursor, repeat);
    ghost var here := FirstIn(lines[row], q, col);
    while row < |lines|
      invariant cursor.row <= row <= |lines|
      invariant row == cursor.row ==> col == StartColumn(cursor, repeat)
      invariant row > cursor.row ==>
                  && here.None? && col == 0
                  && FirstInRows(lines, q, cursor.row + 1, |lines|) == FirstInRows(lines, q, row, |lines|)
    {
      var line := lines[row];
      if col < |line| {
        var found := FirstIn(line, q, col);
        if found.Some? {
          return Some(Position(row, found.value));
        }
      } else {
        assert forall c :: col <= c ==> !At(line, q, c);
      }
      row := row + 1;
      col := 0;
    }
    row := 0;
    while row < cursor.row
      invariant 0 <= row <= cursor.row
      invariant FirstInRows(lines, q, 0, cursor.row) == FirstInRows(lines, q, row, cursor.row)
    {
      var found := FirstIn(lines[row], q, 0);
      if found.Some? {
        return Some(Position(row, found.value));
      }
      row := row + 1;
    }
    if repeat {
      var line := lines[cursor.row];
      var end := Min(cursor.col, |line|);
      var found := FirstIn(line[..end], q, 0);
      if found.Some? {
        return Some(Position(cursor.row, found.value));
      }
    }
    return None;
  }
}
