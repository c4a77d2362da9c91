/** on_insert_text of src/client/gui.c: how much of a typed or pasted text is let into the board. */
module InsertText {
  import opened Commons
  import opened Utf8

  const NL: Byte := 10

  /** What the handler reads off the text view: the bytes of the cursor's line with its newline,
      the line, the cursor's byte in the line, and the number of lines. */
  datatype Geometry = Geometry(lineBytes: nat, insertLine: nat, insertColumn: nat, lines: nat)

  predicate Sane(g: Geometry) {
    g.insertLine < g.lines && g.insertColumn <= g.lineBytes
  }

  // ---------- what is accepted ----------

  /** The newlines before position k. */
  function NewlinesTo(t: seq<Byte>, k: nat): nat
    requires k <= |t|
  {
    if k == 0 then 0 else NewlinesTo(t, k - 1) + if t[k - 1] == NL then 1 else 0
  }

  function Newlines(t: seq<Byte>): nat { NewlinesTo(t, |t|) }

  /** The first newline at or after k, or the end of the text. */
  function NextNl(t: seq<Byte>, k: nat): (e: nat)
    requires k <= |t|
    ensures k <= e <= |t| && (e < |t| ==> t[e] == NL)
    ensures forall i :: k <= i < e ==> t[i] != NL
    decreases |t| - k
  {
    if k == |t| || t[k] == NL then k else NextNl(t, k + 1)
  }

  /** How many newlines of the text are counted: as many as the board still has rows for. */
  function NewRows(t: seq<Byte>, lines: nat): nat {
    var free := if lines < BLACKBOARD_ROWS then BLACKBOARD_ROWS - lines else 0;
    if Newlines(t) < free then Newlines(t) else free
  }

  /** Bytes that a row with `used` bytes takes before the limit stops it. */
  function Room(used: int, limit: nat): nat {
    if used < limit then limit - used else 0
  }

  /** The column the handler starts to count row i from. */
  function StartColumn(g: Geometry, i: nat, rows: nat): int {
    if i == 0 then g.insertColumn else if i >= rows then g.lineBytes - g.insertColumn - 1 else 0
  }

  /** No newline is counted: fill the cursor's line up to its limit or the first newline. */
  function OneRow(t: seq<Byte>, g: Geometry): (n: nat)
    ensures n <= |t|
  {
    var room := Room(if g.insertLine + 1 == g.lines then g.lineBytes + 1 else g.lineBytes, 80);
    if NextNl(t, 0) < room || |t| <= room then NextNl(t, 0) else Corrected(t, room)
  }

  /** `rows` newlines are counted, k bytes have gone into the rows before i: a row too long for its
      limit ends the text there, a newline starts the next row, in the last row only at the limit. */
  function Rows(t: seq<Byte>, k: nat, i: nat, rows: nat, g: Geometry): (n: nat)
    requires k <= |t| && i <= rows
    ensures n <= |t|
    decreases rows - i
  {
    var room, e := Room(StartColumn(g, i, rows), 79), NextNl(t, k);
    if e - k > room then Corrected(t, k + room)
    else if e == |t| then e
    else if i < rows then Rows(t, e + 1, i + 1, rows, g)
    else if e - k == room then e + 1
    else e
  }

  /** The length of the accepted prefix. */
  function Accepted(t: seq<Byte>, g: Geometry): (n: nat)
    ensures n <= |t|
  {
    var rows := NewRows(t, g.lines);
    if rows == 0 then OneRow(t, g) else Rows(t, 0, 0, rows, g)
  }

  // ---------- the handler's loops ----------

  method CountRows(t: seq<Byte>, lines: nat) returns (count: nat)
    ensures count == NewRows(t, lines)
  {
    count := 0;
    ghost var free := if lines < BLACKBOARD_ROWS then BLACKBOARD_ROWS - lines else 0;
    for i := 0 to |t|
      invariant count == if NewlinesTo(t, i) < free then NewlinesTo(t, i) else free
    {
      if t[i] == NL && lines + count < BLACKBOARD_ROWS {
        count := count + 1;
      }
    }
  }

  method CorrectBack(t: seq<Byte>, count: nat) returns (n: nat)
    requires count <= |t|
    ensures n == Corrected(t, count)
  {
    n := count;
    if n >= 3 && StrLen(t, n - 3, n) == 0 {
      n := n - 3;
      return;
    }
    if n >= 2 && StrLen(t, n - 2, n) == 0 {
      n := n - 2;
      return;
    }
    if n >= 1 && StrLen(t, n - 1, n) == 0 {
      n := n - 1;
    }
  }

  method FillLine(t: seq<Byte>, g: Geometry) returns (insertCount: nat)
    ensures insertCount == OneRow(t, g)
  {
    insertCount := 0;
    var j := g.lineBytes;
    if g.insertLine + 1 == g.lines {
      j := j + 1;
    }
    ghost var j0 := j;
    while insertCount < |t|
      invariant insertCount <= |t| && j == j0 + insertCount
      invariant insertCount <= Room(j0, 80) && NextNl(t, insertCount) == NextNl(t, 0)
      decreases |t| - insertCount
    {
      if j >= BLACKBOARD_COLUMNS {
        insertCount := CorrectBack(t, insertCount);
        break;
      }
      if t[insertCount] != NL {
        insertCount := insertCount + 1;
      } else {
        break;
      }
      j := j + 1;
    }
  }

  /** Where one turn of the row loop gets from k, and whether it leaves by the jump to the end. */
  predicate Turn(t: seq<Byte>, g: Geometry, rows: nat, i: nat, k: nat, n: nat, ended: bool)
    requires i <= rows && k <= |t|
  {
    var room, e := Room(StartColumn(g, i, rows), 79), NextNl(t, k);
    if e - k > room then ended && n == Corrected(t, k + room)
    else if e == |t| then ended && n == e
    else if i < rows || e - k == room then !ended && n == e + 1
    else ended && n == e
  }

  lemma TurnOfRows(t: seq<Byte>, g: Geometry, rows: nat, i: nat, k: nat, n: nat, ended: bool)
    requires i <= rows && k <= |t| && Turn(t, g, rows, i, k, n, ended)
    ensures n <= |t|
    ensures Rows(t, k, i, rows, g) == if ended || i == rows then n else Rows(t, n, i + 1, rows, g)
  {
  }

  /** One turn of the row loop. */
  method FillRow(t: seq<Byte>, g: Geometry, newNlcount: nat, i: nat, k: nat) returns (insertCount: nat, ended: bool)
    requires Sane(g) && g.lines + newNlcount <= BLACKBOARD_ROWS && i <= newNlcount && k <= |t|
    ensures Turn(t, g, newNlcount, i, k, insertCount, ended)
  {
    var j: int;
    if i == 0 {
      j := g.insertColumn;
    } else if i >= newNlcount {
      j := g.lineBytes - g.insertColumn - 1;
    } else {
      j := 0;
    }
    insertCount := k;
    ghost var j0 := j;
    while true
      invariant k <= insertCount <= |t| && j == j0 + insertCount - k
      invariant insertCount - k <= Room(j0, 79) && NextNl(t, insertCount) == NextNl(t, k)
      decreases |t| - insertCount
    {
      if insertCount >= |t| {
        return insertCount, true;
      }
      if j + 1 >= BLACKBOARD_COLUMNS {
        if t[insertCount] != NL {
          insertCount := CorrectBack(t, insertCount);
          return insertCount, true;
        }
        if i + g.insertLine + 1 <= BLACKBOARD_ROWS {
          insertCount := insertCount + 1;
        }
        break;
      }
      if i >= newNlcount {
        if t[insertCount] != NL {
          insertCount := insertCount + 1;
          j := j + 1;
        } else {
          return insertCount, true;
        }
      } else {
        insertCount := insertCount + 1;
        j := j + 1;
        if t[insertCount - 1] == NL {
          break;
        }
      }
    }
    ended := false;
  }

  method FillRows(t: seq<Byte>, g: Geometry, newNlcount: nat) returns (insertCount: nat)
    requires Sane(g) && 0 < newNlcount && g.lines + newNlcount <= BLACKBOARD_ROWS
    ensures insertCount == Rows(t, 0, 0, newNlcount, g)
  {
    insertCount := 0;
    var i := 0;
    while i <= newNlcount
      invariant insertCount <= |t| && i <= newNlcount + 1
      invariant Rows(t, 0, 0, newNlcount, g)
             == if i <= newNlcount then Rows(t, insertCount, i, newNlcount, g) else insertCount
      decreases newNlcount - i
    {
      var ended;
      ghost var k := insertCount;
      insertCount, ended := FillRow(t, g, newNlcount, i, insertCount);
      TurnOfRows(t, g, newNlcount, i, k, insertCount, ended);
      if ended {
        return;
      }
      i := i + 1;
    }
  }

  /** The length of the prefix that on_insert_text inserts. */
  method PrefixLength(t: seq<Byte>, g: Geometry) returns (insertCount: nat)
    requires Sane(g)
    ensures insertCount == Accepted(t, g)
  {
    var newNlcount := CountRows(t, g.lines);
    if newNlcount == 0 {
      insertCount := FillLine(t, g);
    } else {
      insertCount := FillRows(t, g, newNlcount);
    }
  }
}
