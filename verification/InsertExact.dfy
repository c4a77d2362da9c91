/**
 What on_insert_text lets in, without its loops: the longest prefix that keeps every row within the
 column limit and adds no more rows than are free.
 */
module InsertExact {
  import opened Commons
  import opened Utf8
  import opened InsertText
  import opened InsertBounds

  /** Where the row of position x starts: behind the last newline before it. */
  function RowStart(t: seq<Byte>, x: nat): (k: nat)
    requires x <= |t|
    ensures k <= x && (k == 0 || t[k - 1] == NL)
    ensures forall i :: k <= i < x ==> t[i] != NL
  {
    if x == 0 || t[x - 1] == NL then x else RowStart(t, x - 1)
  }

  /** The newlines that get a row: all of them, or as many as the board has rows left. */
  function FreshRows(content: seq<Byte>, t: seq<Byte>): nat {
    if Lines(content) + Newlines(t) <= 15 then Newlines(t)
    else if Lines(content) <= 15 then 15 - Lines(content)
    else 0
  }

  /** The bytes that row i shares its line with. The first row stands behind what was before the
      cursor, the last one before what was behind it, and a single row between both. In the last
      line of the board the last of several rows is granted one byte more. */
  function Beside(content: seq<Byte>, cursor: nat, i: nat, rows: nat): int
    requires cursor <= |content|
  {
    if rows == 0 then Column(content, cursor) + Tail(content, cursor)
    else if i == 0 then Column(content, cursor)
    else if i < rows then 0
    else if cursor + Tail(content, cursor) < |content| then Tail(content, cursor)
    else Tail(content, cursor) - 1
  }

  /** The row of position x, up to x, is empty or leaves its line with at most 79 bytes. */
  predicate InLimit(content: seq<Byte>, cursor: nat, t: seq<Byte>, rows: nat, x: nat)
    requires cursor <= |content| && x <= |t|
  {
    x == RowStart(t, x) || Beside(content, cursor, NewlinesTo(t, x), rows) + x - RowStart(t, x) <= 79
  }

  /** q is behind the newline that ends the last of several rows, and that row is full. */
  predicate FullLastRow(content: seq<Byte>, cursor: nat, t: seq<Byte>, rows: nat, q: nat)
    requires cursor <= |content| && q <= |t|
  {
    && 0 < rows && 0 < q && t[q - 1] == NL && NewlinesTo(t, q) == rows + 1
    && Beside(content, cursor, rows, rows) + q - 1 - RowStart(t, q - 1) >= 79
  }

  /** The first q bytes of a text can go into the board at the cursor. */
  ghost predicate CanGo(content: seq<Byte>, cursor: nat, t: seq<Byte>, q: nat)
    requires cursor <= |content|
  {
    var rows := FreshRows(content, t);
    && Boundary(t, q)
    && (forall x :: 0 <= x <= q ==> InLimit(content, cursor, t, rows, x))
    && (NewlinesTo(t, q) <= rows || FullLastRow(content, cursor, t, rows, q))
  }

  // ---------- positions in a row ----------

  lemma {:induction false} InRow(t: seq<Byte>, k: nat, x: nat)
    requires k <= |t| && k <= x <= NextNl(t, k) && (k == 0 || t[k - 1] == NL)
    ensures RowStart(t, x) == k && NewlinesTo(t, x) == NewlinesTo(t, k)
    decreases x
  {
    if k < x { InRow(t, k, x - 1); }
  }

  lemma NewRow(t: seq<Byte>, e: nat)
    requires e < |t| && t[e] == NL
    ensures RowStart(t, e + 1) == e + 1 && NewlinesTo(t, e + 1) == NewlinesTo(t, e) + 1
  {
  }

  // ---------- one row ----------

  lemma OneRowGoes(t: seq<Byte>, g: Geometry, beside: nat, n: nat, e: nat)
    requires Validates(t) && n == OneRow(t, g) && e == NextNl(t, 0)
    requires beside + 1 == if g.insertLine + 1 == g.lines then g.lineBytes + 1 else g.lineBytes
    ensures n <= e && Boundary(t, n) && (n == 0 || beside + n <= 79)
    ensures forall q: nat :: n < q <= e && Boundary(t, q) ==> beside + q > 79
  {
    var room := Room(beside + 1, 80);
    if room < |t| { CorrectedIsFloor(t, room); }
    EndOfRow(t, 0);
  }

  /** A newline and what follows it are boundaries. */
  lemma EndOfRow(t: seq<Byte>, k: nat)
    requires Validates(t) && k <= |t|
    ensures var e := NextNl(t, k); Boundary(t, e) && (e < |t| ==> Boundary(t, e + 1))
  {
    if NextNl(t, k) < |t| { AsciiIsAlone(t, NextNl(t, k)); }
  }

  /** When no newline is counted, the accepted part ends at the first newline, or at the last
      character with which the line has at most 79 bytes. */
  lemma OneRowIsLongest(content: seq<Byte>, cursor: nat, t: seq<Byte>)
    requires cursor <= |content| && Validates(t) && FreshRows(content, t) == 0
    ensures
      var n, e := Accepted(t, GeometryAt(content, cursor)), NextNl(t, 0);
      var line := Column(content, cursor) + Tail(content, cursor);
      && n <= e && Boundary(t, n) && (n == 0 || line + n <= 79)
      && forall q: nat :: n < q <= e && Boundary(t, q) ==> line + q > 79
  {
    GeometryIsSane(content, cursor);
    var g := GeometryAt(content, cursor);
    assert NewRows(t, g.lines) == 0;
    OneRowGoes(t, g, Column(content, cursor) + Tail(content, cursor), Accepted(t, g), NextNl(t, 0));
  }

  // ---------- several rows ----------

  /** InLimit for what the handler counts from, for all positions of a range. */
  predicate RowIn(t: seq<Byte>, g: Geometry, rows: nat, x: nat)
    requires x <= |t|
  {
    x == RowStart(t, x) || StartColumn(g, NewlinesTo(t, x), rows) + x - RowStart(t, x) <= 79
  }

  predicate RowsIn(t: seq<Byte>, g: Geometry, rows: nat, k: nat, q: nat)
    requires q <= |t|
  {
    forall x :: k <= x <= q ==> RowIn(t, g, rows, x)
  }

  predicate FullAt(t: seq<Byte>, g: Geometry, rows: nat, q: nat)
    requires q <= |t|
  {
    && 0 < q && t[q - 1] == NL && NewlinesTo(t, q) == rows + 1
    && StartColumn(g, rows, rows) + q - 1 - RowStart(t, q - 1) >= 79
  }

  /** The text up to q can go in, as far as the positions from k on say. */
  predicate GoesFrom(t: seq<Byte>, g: Geometry, rows: nat, k: nat, q: nat)
    requires q <= |t|
  {
    Boundary(t, q) && RowsIn(t, g, rows, k, q) && (NewlinesTo(t, q) <= rows || FullAt(t, g, rows, q))
  }

  ghost predicate LongestFrom(t: seq<Byte>, g: Geometry, rows: nat, k: nat, n: nat) {
    && k <= n <= |t| && GoesFrom(t, g, rows, k, n)
    && forall q: nat :: n < q <= |t| ==> !GoesFrom(t, g, rows, k, q)
  }

  /** In a row the limit is the room that the handler leaves. */
  lemma InRowIff(t: seq<Byte>, g: Geometry, rows: nat, k: nat, i: nat, x: nat)
    requires k <= |t| && (k == 0 || t[k - 1] == NL) && NewlinesTo(t, k) == i
    requires k <= x <= NextNl(t, k)
    ensures RowIn(t, g, rows, x) <==> x - k <= Room(StartColumn(g, i, rows), 79)
  {
    InRow(t, k, x);
  }

  lemma PartIn(t: seq<Byte>, g: Geometry, rows: nat, k: nat, i: nat, n: nat)
    requires k <= |t| && (k == 0 || t[k - 1] == NL) && NewlinesTo(t, k) == i <= rows
    requires k <= n <= NextNl(t, k) && n - k <= Room(StartColumn(g, i, rows), 79)
    ensures RowsIn(t, g, rows, k, n) && NewlinesTo(t, n) == i
  {
    forall x | k <= x <= n ensures RowIn(t, g, rows, x) { InRowIff(t, g, rows, k, i, x); }
    InRow(t, k, n);
  }

  /** A row that is cut at the limit. */
  lemma CutIsLongest(t: seq<Byte>, g: Geometry, rows: nat, k: nat, i: nat, n: nat)
    requires Validates(t) && k <= |t| && (k == 0 || t[k - 1] == NL) && NewlinesTo(t, k) == i <= rows && Boundary(t, k)
    requires var room := Room(StartColumn(g, i, rows), 79);
      NextNl(t, k) - k > room && n == Corrected(t, k + room)
    ensures LongestFrom(t, g, rows, k, n)
  {
    var room := Room(StartColumn(g, i, rows), 79);
    CorrectedIsFloor(t, k + room);
    assert k <= n;
    PartIn(t, g, rows, k, i, n);
    forall q: nat | n < q <= |t| ensures !GoesFrom(t, g, rows, k, q) {
      if q > k + room {
        InRowIff(t, g, rows, k, i, k + room + 1);
        assert !RowIn(t, g, rows, k + room + 1);
      }
    }
  }

  lemma {:induction false} LaterNewline(t: seq<Byte>, e: nat, q: nat)
    requires e < q <= |t| && t[e] == NL
    ensures NewlinesTo(t, q) >= NewlinesTo(t, e) + 1
    ensures q > e + 1 && t[q - 1] == NL ==> NewlinesTo(t, q) >= NewlinesTo(t, e) + 2
  {
    FewerNewlines(t, e + 1, q);
    if q > e + 1 { FewerNewlines(t, e + 1, q - 1); }
  }

  /** The last counted row, which fits in front of the next newline. */
  lemma LastIsLongest(t: seq<Byte>, g: Geometry, rows: nat, k: nat, n: nat)
    requires Validates(t) && k <= |t| && (k == 0 || t[k - 1] == NL) && NewlinesTo(t, k) == rows && Boundary(t, k)
    requires
      var e, room := NextNl(t, k), Room(StartColumn(g, rows, rows), 79);
      e < |t| && e - k <= room && n == if e - k == room then e + 1 else e
    ensures LongestFrom(t, g, rows, k, n)
  {
    var e, room := NextNl(t, k), Room(StartColumn(g, rows, rows), 79);
    PartIn(t, g, rows, k, rows, e);
    EndOfRow(t, k);
    NewRow(t, e);
    InRow(t, k, e);
    forall q: nat | n < q <= |t| ensures !GoesFrom(t, g, rows, k, q) {
      LaterNewline(t, e, q);
    }
  }

  lemma EndIsLongest(t: seq<Byte>, g: Geometry, rows: nat, k: nat, i: nat)
    requires Validates(t) && k <= |t| && (k == 0 || t[k - 1] == NL) && NewlinesTo(t, k) == i <= rows
    requires NextNl(t, k) == |t| && |t| - k <= Room(StartColumn(g, i, rows), 79)
    ensures LongestFrom(t, g, rows, k, |t|)
  {
    PartIn(t, g, rows, k, i, |t|);
  }

  /** The row at k is where the handler stops. */
  predicate StopsAt(t: seq<Byte>, k: nat, i: nat, rows: nat, g: Geometry)
    requires k <= |t| && i <= rows
  {
    i == rows || NextNl(t, k) == |t| || NextNl(t, k) - k > Room(StartColumn(g, i, rows), 79)
  }

  lemma StopIsLongest(t: seq<Byte>, g: Geometry, rows: nat, k: nat, i: nat, n: nat)
    requires Validates(t) && k <= |t| && (k == 0 || t[k - 1] == NL) && NewlinesTo(t, k) == i <= rows && Boundary(t, k)
    requires n == Rows(t, k, i, rows, g) && StopsAt(t, k, i, rows, g)
    ensures LongestFrom(t, g, rows, k, n)
  {
    var e, room := NextNl(t, k), Room(StartColumn(g, i, rows), 79);
    if e - k > room {
      CutIsLongest(t, g, rows, k, i, n);
    } else if e == |t| {
      EndIsLongest(t, g, rows, k, i);
    } else {
      LastIsLongest(t, g, rows, k, n);
    }
  }

  /** A row that fits, and the row behind it. */
  lemma OneRowOn(t: seq<Byte>, g: Geometry, rows: nat, k: nat, i: nat, e: nat)
    requires k <= |t| && (k == 0 || t[k - 1] == NL) && NewlinesTo(t, k) == i <= rows && e == NextNl(t, k)
    requires !StopsAt(t, k, i, rows, g) && RowsIn(t, g, rows, 0, k)
    ensures i < rows && e < |t| && t[e] == NL && NewlinesTo(t, e + 1) == i + 1
    ensures RowsIn(t, g, rows, 0, e + 1)
    ensures Rows(t, k, i, rows, g) == Rows(t, e + 1, i + 1, rows, g)
  {
    RowsOnward(t, k, i, rows, g);
    RowNewlines(t, k, e);
    PartIn(t, g, rows, k, i, e);
    InRowIff(t, g, rows, e + 1, i + 1, e + 1);
  }

  /** The row at which the handler stops; the rows before it are within the limit. */
  lemma StopRow(t: seq<Byte>, g: Geometry, rows: nat, n: nat) returns (k: nat, i: nat)
    requires n == Rows(t, 0, 0, rows, g)
    ensures k <= |t| && (k == 0 || t[k - 1] == NL) && NewlinesTo(t, k) == i <= rows
    ensures n == Rows(t, k, i, rows, g) && StopsAt(t, k, i, rows, g)
    ensures RowsIn(t, g, rows, 0, k)
  {
    k, i := 0, 0;
    while !StopsAt(t, k, i, rows, g)
      invariant k <= |t| && (k == 0 || t[k - 1] == NL) && NewlinesTo(t, k) == i <= rows
      invariant n == Rows(t, k, i, rows, g) && RowsIn(t, g, rows, 0, k)
      decreases rows - i
    {
      var e := NextNl(t, k);
      OneRowOn(t, g, rows, k, i, e);
      k, i := e + 1, i + 1;
    }
  }

  lemma LongestFromStart(t: seq<Byte>, g: Geometry, rows: nat, k: nat, n: nat)
    requires k <= |t| && RowsIn(t, g, rows, 0, k) && LongestFrom(t, g, rows, k, n)
    ensures LongestFrom(t, g, rows, 0, n)
  {
    forall q: nat | n < q <= |t| ensures !GoesFrom(t, g, rows, 0, q) {
      assert !GoesFrom(t, g, rows, k, q);
      assert RowsIn(t, g, rows, 0, q) ==> RowsIn(t, g, rows, k, q);
    }
  }

  lemma RowsAreLongest(t: seq<Byte>, g: Geometry, rows: nat)
    requires Validates(t)
    ensures LongestFrom(t, g, rows, 0, Rows(t, 0, 0, rows, g))
  {
    var n := Rows(t, 0, 0, rows, g);
    var k, i := StopRow(t, g, rows, n);
    CutIff(t, 0);
    if k > 0 { AsciiIsAlone(t, k - 1); }
    StopIsLongest(t, g, rows, k, i, n);
    LongestFromStart(t, g, rows, k, n);
  }

  // ---------- the whole handler ----------

  lemma BesideIsStart(content: seq<Byte>, cursor: nat, i: nat, rows: nat)
    requires cursor <= |content| && 0 < rows
    ensures Beside(content, cursor, i, rows) == StartColumn(GeometryAt(content, cursor), i, rows)
  {
  }

  lemma CanGoIff(content: seq<Byte>, cursor: nat, t: seq<Byte>, rows: nat, q: nat)
    requires cursor <= |content| && 0 < rows == FreshRows(content, t) && q <= |t|
    ensures CanGo(content, cursor, t, q) <==> GoesFrom(t, GeometryAt(content, cursor), rows, 0, q)
  {
    forall i: nat ensures Beside(content, cursor, i, rows) == StartColumn(GeometryAt(content, cursor), i, rows) {
      BesideIsStart(content, cursor, i, rows);
    }
    var g := GeometryAt(content, cursor);
    forall x | 0 <= x <= q ensures InLimit(content, cursor, t, rows, x) <==> RowIn(t, g, rows, x) {
    }
  }

  lemma OneRowCanGo(content: seq<Byte>, cursor: nat, t: seq<Byte>, q: nat)
    requires cursor <= |content| && FreshRows(content, t) == 0
    ensures CanGo(content, cursor, t, q) <==>
      && Boundary(t, q) && q <= NextNl(t, 0)
      && (q == 0 || Column(content, cursor) + Tail(content, cursor) + q <= 79)
  {
    var e := NextNl(t, 0);
    if q <= e {
      forall x | 0 <= x <= q ensures RowStart(t, x) == 0 && NewlinesTo(t, x) == 0 { InRow(t, 0, x); }
      if CanGo(content, cursor, t, q) { assert InLimit(content, cursor, t, 0, q); }
    } else if q <= |t| {
      LaterNewline(t, e, q);
    }
  }

  /** on_insert_text lets in the longest prefix that can go into the board: for every valid text,
      every content and every cursor. */
  lemma AcceptedIsLongest(content: seq<Byte>, cursor: nat, t: seq<Byte>)
    requires cursor <= |content| && Validates(t)
    ensures
      var n := Accepted(t, GeometryAt(content, cursor));
      CanGo(content, cursor, t, n) && forall q: nat :: CanGo(content, cursor, t, q) ==> q <= n
  {
    var g, rows := GeometryAt(content, cursor), FreshRows(content, t);
    var n := Accepted(t, g);
    assert NewRows(t, g.lines) == rows;
    if rows == 0 {
      OneRowIsLongest(content, cursor, t);
      forall q: nat ensures q == n || CanGo(content, cursor, t, q) ==> q <= n { OneRowCanGo(content, cursor, t, q); }
      OneRowCanGo(content, cursor, t, n);
    } else {
      RowsAreLongest(t, g, rows);
      CanGoIff(content, cursor, t, rows, n);
      forall q: nat | CanGo(content, cursor, t, q) ensures q <= n { CanGoIff(content, cursor, t, rows, q); }
    }
  }

  /** A text goes in whole exactly if all of it can. */
  lemma AcceptedWholeIff(content: seq<Byte>, cursor: nat, t: seq<Byte>)
    requires cursor <= |content| && Validates(t)
    ensures Accepted(t, GeometryAt(content, cursor)) == |t| <==> CanGo(content, cursor, t, |t|)
  {
    AcceptedIsLongest(content, cursor, t);
  }
}
