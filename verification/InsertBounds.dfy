/** What on_insert_text keeps of the board: valid UTF-8, the length of lines, the number of rows. */
module InsertBounds {
  import opened Commons
  import opened Utf8
  import opened InsertText

  // ---------- the text view ----------

  /** The bytes before the cursor in its line, and the ones behind it. */
  function Column(content: seq<Byte>, cursor: nat): nat
    requires cursor <= |content|
  {
    EndColumn(0, content[..cursor])
  }

  function Tail(content: seq<Byte>, cursor: nat): nat
    requires cursor <= |content|
  {
    NextNl(content[cursor..], 0)
  }

  /** Lines of a board. */
  function Lines(content: seq<Byte>): nat { Newlines(content) + 1 }

  function GeometryAt(content: seq<Byte>, cursor: nat): (g: Geometry)
    requires cursor <= |content|
  {
    var tail := Tail(content, cursor);
    Geometry(Column(content, cursor) + tail + if cursor + tail < |content| then 1 else 0,
             Newlines(content[..cursor]), Column(content, cursor), Lines(content))
  }

  /** The board after the accepted part of a text went in at the cursor. */
  function After(content: seq<Byte>, cursor: nat, t: seq<Byte>): seq<Byte>
    requires cursor <= |content|
  {
    content[..cursor] + t[..Accepted(t, GeometryAt(content, cursor))] + content[cursor..]
  }

  // ---------- valid UTF-8 ----------

  /** What the row lemmas need of a text: corrections end at a boundary and never go back over
      one, and newlines are characters. */
  ghost predicate Steady(t: seq<Byte>) {
    && Boundary(t, 0)
    && (forall n: nat :: n < |t| ==> Boundary(t, Corrected(t, n)))
    && (forall k: nat, n: nat :: k <= n < |t| && Boundary(t, k) ==> k <= Corrected(t, n))
    && (forall e :: 0 <= e < |t| && t[e] == NL ==> Boundary(t, e) && Boundary(t, e + 1))
  }

  lemma TextIsSteady(t: seq<Byte>)
    requires IsUtf8(t) && 0 !in t
    ensures Steady(t)
  {
    CutIff(t, 0);
    forall n: nat | n < |t|
      ensures Boundary(t, Corrected(t, n)) && forall k: nat :: k <= n && Boundary(t, k) ==> k <= Corrected(t, n)
    {
      CorrectedIsFloor(t, n);
    }
    forall e | 0 <= e < |t| && t[e] == NL ensures Boundary(t, e) && Boundary(t, e + 1) {
      AsciiIsAlone(t, e);
    }
  }

  lemma {:induction false} RowsEndAtBoundary(t: seq<Byte>, k: nat, i: nat, rows: nat, g: Geometry)
    requires Steady(t) && k <= |t| && i <= rows
    ensures Boundary(t, Rows(t, k, i, rows, g))
    decreases rows - i
  {
    if i < rows && NextNl(t, k) < |t| {
      RowsEndAtBoundary(t, NextNl(t, k) + 1, i + 1, rows, g);
    }
  }

  /** Whatever stops the loops, what goes in is a prefix that ends between two characters. */
  lemma AcceptedIsUtf8(t: seq<Byte>, g: Geometry)
    requires IsUtf8(t) && 0 !in t
    ensures IsUtf8(t[..Accepted(t, g)]) && IsUtf8(t[Accepted(t, g)..])
  {
    TextIsSteady(t);
    var rows := NewRows(t, g.lines);
    if rows > 0 {
      RowsEndAtBoundary(t, 0, 0, rows, g);
    }
    CutIff(t, Accepted(t, g));
  }

  // ---------- lines ----------

  /** The column after a text that starts in column c. */
  function EndColumn(c: nat, s: seq<Byte>): nat {
    if s == [] then c else if s[|s| - 1] == NL then 0 else EndColumn(c, s[..|s| - 1]) + 1
  }

  /** Every line that ends inside the text has at most 80 bytes. */
  predicate Closed(c: nat, s: seq<Byte>) {
    s == [] ||
    (Closed(c, s[..|s| - 1]) && (s[|s| - 1] == NL ==> EndColumn(c, s[..|s| - 1]) <= BLACKBOARD_COLUMNS))
  }

  /** Every line of a text that starts in column c has at most 80 bytes. */
  predicate Within(c: nat, s: seq<Byte>) {
    Closed(c, s) && EndColumn(c, s) <= BLACKBOARD_COLUMNS
  }

  predicate LinesWithin(content: seq<Byte>) { Within(0, content) }

  lemma {:induction false} AppendLines(c: nat, a: seq<Byte>, b: seq<Byte>)
    ensures EndColumn(c, a + b) == EndColumn(EndColumn(c, a), b)
    ensures Closed(c, a + b) <==> Closed(c, a) && Closed(EndColumn(c, a), b)
  {
    if b == [] {
      assert a + b == a;
    } else {
      var n := |b| - 1;
      AppendLines(c, a, b[..n]);
      assert (a + b)[..|a + b| - 1] == a + b[..n];
    }
  }

  lemma {:induction false} PlainLine(c: nat, s: seq<Byte>)
    requires NL !in s
    ensures EndColumn(c, s) == c + |s| && Closed(c, s)
  {
    if s != [] {
      PlainLine(c, s[..|s| - 1]);
    }
  }

  lemma LineBreak(c: nat)
    ensures EndColumn(c, [NL]) == 0 && (Closed(c, [NL]) <==> c <= BLACKBOARD_COLUMNS)
  {
    assert [NL][..0] == [];
  }

  lemma BrokenLine(c: nat, row: seq<Byte>)
    requires NL !in row
    ensures EndColumn(c, row + [NL]) == 0
    ensures Closed(c, row + [NL]) <==> c + |row| <= BLACKBOARD_COLUMNS
  {
    PlainLine(c, row);
    AppendLines(c, row, [NL]);
    LineBreak(c + |row|);
  }

  /** The row from k to the newline at e. */
  lemma FullRow(c: nat, t: seq<Byte>, k: nat, e: nat)
    requires k <= e < |t| && e == NextNl(t, k)
    ensures EndColumn(c, t[k..e + 1]) == 0
    ensures Closed(c, t[k..e + 1]) <==> c + e - k <= BLACKBOARD_COLUMNS
  {
    var row := t[k..e];
    BrokenLine(c, row);
    assert t[k..e + 1] == row + [NL];
  }

  /** Only the first line of a text depends on the column it starts in. */
  lemma FirstLineDecides(c: nat, d: nat, post: seq<Byte>)
    requires Within(d, post)
    ensures Within(c, post) <==> c + NextNl(post, 0) <= BLACKBOARD_COLUMNS
  {
    var e := NextNl(post, 0);
    if e == |post| {
      PlainLine(c, post);
    } else {
      assert post == post[0..e + 1] + post[e + 1..];
      FullRow(c, post, 0, e);
      FullRow(d, post, 0, e);
      AppendLines(c, post[0..e + 1], post[e + 1..]);
      AppendLines(d, post[0..e + 1], post[e + 1..]);
    }
  }

  /** A text inserted into a board of short lines leaves them short exactly if its own are and
      its last one leaves room for the tail behind the cursor. */
  lemma InsertedLines(content: seq<Byte>, cursor: nat, p: seq<Byte>)
    requires cursor <= |content| && LinesWithin(content)
    ensures
      var c := Column(content, cursor);
      LinesWithin(content[..cursor] + p + content[cursor..]) ==
      (Closed(c, p) && EndColumn(c, p) + Tail(content, cursor) <= BLACKBOARD_COLUMNS)
    ensures Column(content, cursor) + Tail(content, cursor) <= BLACKBOARD_COLUMNS
  {
    var pre, post, c := content[..cursor], content[cursor..], Column(content, cursor);
    assert content == pre + post;
    AppendLines(0, pre, post);
    FirstLineDecides(c, c, post);
    FirstLineDecides(EndColumn(c, p), c, post);
    AppendLines(0, pre + p, post);
    AppendLines(0, pre, p);
  }

  // ---------- newlines ----------

  lemma {:induction false} AppendNewlinesTo(a: seq<Byte>, b: seq<Byte>, j: nat)
    requires j <= |b|
    ensures NewlinesTo(a + b, |a| + j) == Newlines(a) + NewlinesTo(b, j)
  {
    if j == 0 {
      NewlinesOfPrefix(a + b, |a|);
      assert (a + b)[..|a|] == a;
    } else {
      AppendNewlinesTo(a, b, j - 1);
    }
  }

  lemma {:induction false} SameNewlines(s: seq<Byte>, t: seq<Byte>, k: nat)
    requires k <= |s| && k <= |t| && forall i :: 0 <= i < k ==> s[i] == t[i]
    ensures NewlinesTo(s, k) == NewlinesTo(t, k)
  {
    if k > 0 { SameNewlines(s, t, k - 1); }
  }

  lemma NewlinesOfPrefix(t: seq<Byte>, k: nat)
    requires k <= |t|
    ensures NewlinesTo(t, k) == Newlines(t[..k])
  {
    SameNewlines(t, t[..k], k);
  }

  lemma AppendNewlines(a: seq<Byte>, b: seq<Byte>)
    ensures Newlines(a + b) == Newlines(a) + Newlines(b)
  {
    AppendNewlinesTo(a, b, |b|);
  }

  /** No newline lies between k and the next one. */
  lemma {:induction false} RowNewlines(t: seq<Byte>, k: nat, n: nat)
    requires k <= |t| && k <= n <= NextNl(t, k)
    ensures NewlinesTo(t, n) == NewlinesTo(t, k)
    decreases n
  {
    if k < n { RowNewlines(t, k, n - 1); }
  }

  lemma NoNewlines(s: seq<Byte>)
    requires NL !in s
    ensures Newlines(s) == 0
  {
    assert NextNl(s, 0) == |s|;
    RowNewlines(s, 0, |s|);
  }

  lemma {:induction false} FewerNewlines(t: seq<Byte>, m: nat, n: nat)
    requires m <= n <= |t|
    ensures NewlinesTo(t, m) <= NewlinesTo(t, n)
    decreases n
  {
    if m < n { FewerNewlines(t, m, n - 1); }
  }

  /** What the handler reads off the view agrees with itself. */
  lemma GeometryIsSane(content: seq<Byte>, cursor: nat)
    requires cursor <= |content|
    ensures var g := GeometryAt(content, cursor);
      && Sane(g)
      && (g.insertLine + 1 == g.lines <==> cursor + Tail(content, cursor) == |content|)
  {
    var post, e := content[cursor..], Tail(content, cursor);
    assert content == content[..cursor] + post;
    AppendNewlines(content[..cursor], post);
    RowNewlines(post, 0, e);
    if e < |post| {
      FewerNewlines(post, e + 1, |post|);
    }
  }

  // ---------- no newline accepted ----------

  /** When no newline is counted none is accepted, and the cursor's line grows to at most 79
      bytes: a longer one does not grow at all. */
  lemma OneRowBound(content: seq<Byte>, cursor: nat, t: seq<Byte>)
    requires cursor <= |content| && NewRows(t, Lines(content)) == 0
    ensures
      var n := Accepted(t, GeometryAt(content, cursor));
      && NL !in t[..n]
      && (n == 0 || Column(content, cursor) + Tail(content, cursor) + n <= 79)
  {
    GeometryIsSane(content, cursor);
  }

  lemma OneRowKeepsLines(content: seq<Byte>, cursor: nat, t: seq<Byte>)
    requires cursor <= |content| && NewRows(t, Lines(content)) == 0 && LinesWithin(content)
    ensures LinesWithin(After(content, cursor, t))
  {
    var p := t[..Accepted(t, GeometryAt(content, cursor))];
    OneRowBound(content, cursor, t);
    InsertedLines(content, cursor, p);
    PlainLine(Column(content, cursor), p);
  }

  // ---------- newlines accepted ----------

  /** The length of the row that the column limit cuts off before the last counted newline,
      if there is one. */
  function CutLength(t: seq<Byte>, k: nat, i: nat, rows: nat, g: Geometry): Option<int>
    requires k <= |t| && i <= rows
    decreases rows - i
  {
    var j := StartColumn(g, i, rows);
    var room, e := Room(j, 79), NextNl(t, k);
    if i == rows then None
    else if e - k > room then Some(j + Corrected(t, k + room) - k)
    else if e == |t| then None
    else CutLength(t, e + 1, i + 1, rows, g)
  }

  /** The geometry of a board with short lines. */
  predicate Fits(g: Geometry, tail: nat) {
    && g.insertColumn + tail <= BLACKBOARD_COLUMNS
    && tail - 1 <= g.lineBytes - g.insertColumn - 1 <= tail
  }

  /** What RowLines says about the accepted bytes from k to n. */
  predicate RowsOk(t: seq<Byte>, k: nat, n: nat, c: nat, cut: Option<int>, tail: nat) {
    && k <= n <= |t| && Closed(c, t[k..n])
    && (cut.Some? ==> EndColumn(c, t[k..n]) == cut.value <= BLACKBOARD_COLUMNS)
    && (cut.None? ==> EndColumn(c, t[k..n]) + tail <= BLACKBOARD_COLUMNS)
  }

  /** The row at k stays a part of one row. */
  lemma PartialRow(t: seq<Byte>, k: nat, n: nat, c: nat)
    requires k <= n <= |t| && n <= NextNl(t, k)
    ensures Closed(c, t[k..n]) && EndColumn(c, t[k..n]) == c + n - k
  {
    PlainLine(c, t[k..n]);
  }

  lemma LastRow(t: seq<Byte>, k: nat, rows: nat, g: Geometry, tail: nat, n: nat)
    requires Steady(t) && k <= |t| && Boundary(t, k) && 0 < rows && Fits(g, tail)
    requires n == Rows(t, k, rows, rows, g)
    ensures RowsOk(t, k, n, 0, None, tail)
  {
    var room, e := Room(StartColumn(g, rows, rows), 79), NextNl(t, k);
    if e - k > room {
      assert k <= n <= k + room;
      PartialRow(t, k, n, 0);
    } else if e < |t| && e - k == room {
      assert n == e + 1;
      FullRow(0, t, k, e);
    } else {
      assert n == e;
      PartialRow(t, k, n, 0);
    }
  }

  lemma CutRow(t: seq<Byte>, k: nat, i: nat, rows: nat, g: Geometry, tail: nat, c: nat, n: nat, cut: Option<int>)
    requires Steady(t) && k <= |t| && Boundary(t, k) && i < rows && Fits(g, tail)
    requires c == if i == 0 then g.insertColumn else 0
    requires NextNl(t, k) - k > Room(c, 79)
    requires n == Rows(t, k, i, rows, g) && cut == CutLength(t, k, i, rows, g)
    ensures RowsOk(t, k, n, c, cut, tail)
  {
    assert StartColumn(g, i, rows) == c;
    assert k <= n <= k + Room(c, 79) && cut == Some(c + n - k);
    PartialRow(t, k, n, c);
  }

  lemma NextRow(t: seq<Byte>, k: nat, e: nat, n: nat, c: nat, cut: Option<int>, tail: nat)
    requires k <= e < |t| && e == NextNl(t, k)
    requires c <= BLACKBOARD_COLUMNS && e - k <= Room(c, 79)
    requires RowsOk(t, e + 1, n, 0, cut, tail)
    ensures RowsOk(t, k, n, c, cut, tail)
  {
    FullRow(c, t, k, e);
    assert t[k..n] == t[k..e + 1] + t[e + 1..n];
    AppendLines(c, t[k..e + 1], t[e + 1..n]);
  }

  /** All rows but the last accepted one are short; so is that one with the tail behind it,
      unless a row was cut off early and is too long. */
  lemma {:induction false} RowLines(
    t: seq<Byte>, k: nat, i: nat, rows: nat, g: Geometry, tail: nat, c: nat, n: nat, cut: Option<int>)
    requires Steady(t) && k <= |t| && Boundary(t, k)
    requires 0 < rows && i <= rows && Fits(g, tail)
    requires Follow(t, k, rows - i)
    requires c == if i == 0 then g.insertColumn else 0
    requires n == Rows(t, k, i, rows, g) && cut == CutLength(t, k, i, rows, g)
    ensures RowsOk(t, k, n, c, cut, tail)
    decreases rows - i
  {
    var e := NextNl(t, k);
    if i == rows {
      assert c == 0 && cut == None;
      LastRow(t, k, rows, g, tail, n);
    } else if e - k > Room(c, 79) {
      CutRow(t, k, i, rows, g, tail, c, n, cut);
    } else {
      RowsOnward(t, k, i, rows, g);
      RowLines(t, e + 1, i + 1, rows, g, tail, 0, n, cut);
      NextRow(t, k, e, n, c, cut, tail);
    }
  }

  /** At least `left` newlines follow from k on. */
  predicate Follow(t: seq<Byte>, k: nat, left: nat)
    requires k <= |t|
    decreases left
  {
    left == 0 || (NextNl(t, k) < |t| && Follow(t, NextNl(t, k) + 1, left - 1))
  }

  lemma {:induction false} CountedFollow(t: seq<Byte>, k: nat, left: nat)
    requires k <= |t| && NewlinesTo(t, k) + left <= Newlines(t)
    ensures Follow(t, k, left)
    decreases left
  {
    if left > 0 {
      var e := NextNl(t, k);
      RowNewlines(t, k, e);
      if e < |t| {
        CountedFollow(t, e + 1, left - 1);
      }
    }
  }

  lemma RowsOnward(t: seq<Byte>, k: nat, i: nat, rows: nat, g: Geometry)
    requires i < rows && k <= |t| && NextNl(t, k) < |t|
    requires NextNl(t, k) - k <= Room(StartColumn(g, i, rows), 79)
    ensures Rows(t, k, i, rows, g) == Rows(t, NextNl(t, k) + 1, i + 1, rows, g)
    ensures CutLength(t, k, i, rows, g) == CutLength(t, NextNl(t, k) + 1, i + 1, rows, g)
  {
  }

  /** The length of the row that is cut off early, for an insertion into a board. */
  function EarlyCut(content: seq<Byte>, cursor: nat, t: seq<Byte>): Option<int>
    requires cursor <= |content|
  {
    CutLength(t, 0, 0, NewRows(t, Lines(content)), GeometryAt(content, cursor))
  }

  /** Lines of at most 80 bytes stay that short exactly if no row before the last counted
      newline is cut off at the limit, or the row cut off has room for the tail of the
      cursor's line. */
  lemma LinesKeptIff(content: seq<Byte>, cursor: nat, t: seq<Byte>)
    requires cursor <= |content| && LinesWithin(content) && IsUtf8(t) && 0 !in t
    ensures
      var cut := EarlyCut(content, cursor, t);
      LinesWithin(After(content, cursor, t)) ==
      (cut.None? || cut.value + Tail(content, cursor) <= BLACKBOARD_COLUMNS)
  {
    var g, rows := GeometryAt(content, cursor), NewRows(t, Lines(content));
    if rows == 0 {
      OneRowKeepsLines(content, cursor, t);
    } else {
      var p := t[..Accepted(t, g)];
      InsertedLines(content, cursor, p);
      assert t[..0] == [] && t[0..|p|] == p;
      TextIsSteady(t);
      CountedFollow(t, 0, rows);
      RowLines(t, 0, 0, rows, g, Tail(content, cursor), g.insertColumn, |p|, EarlyCut(content, cursor, t));
    }
  }

  /** With the cursor at the end of its line the lines always stay short. */
  lemma LinesKeptAtLineEnd(content: seq<Byte>, cursor: nat, t: seq<Byte>)
    requires cursor <= |content| && LinesWithin(content) && IsUtf8(t) && 0 !in t
    requires cursor == |content| || content[cursor] == NL
    ensures LinesWithin(After(content, cursor, t))
  {
    LinesKeptIff(content, cursor, t);
    var g, rows := GeometryAt(content, cursor), NewRows(t, Lines(content));
    if rows > 0 {
      InsertedLines(content, cursor, []);
      assert t[..0] == [];
      TextIsSteady(t);
      CountedFollow(t, 0, rows);
      RowLines(t, 0, 0, rows, g, 0, g.insertColumn, Accepted(t, g), EarlyCut(content, cursor, t));
    }
  }

  function Plain(n: nat): seq<Byte> { seq(n, _ => 97) }

  lemma {:induction false} AsciiIsUtf8(t: seq<Byte>)
    requires forall i :: 0 <= i < |t| ==> t[i] <= 0x7F
    ensures IsUtf8(t)
  {
    if t != [] { AsciiIsUtf8(t[1..]); }
  }

  /** Pasting in the middle of a line can make it too long, even when the text is cut before its
      first newline: 80 letters and a newline at the start of a line make it 79 bytes longer. */
  lemma MidLinePaste(content: seq<Byte>)
    requires NL !in content && 2 <= |content| <= BLACKBOARD_COLUMNS
    ensures
      var t := Plain(80) + [NL];
      && LinesWithin(content) && IsUtf8(t) && 0 !in t
      && Accepted(t, GeometryAt(content, 0)) == 79
      && !LinesWithin(After(content, 0, t))
  {
    var t := Plain(80) + [NL];
    AsciiIsUtf8(t);
    PlainLine(0, content);
    NoNewlines(content);
    NoNewlines(Plain(80));
    assert t[..80] == Plain(80) && t[..81] == t;
    AppendNewlines(Plain(80), [NL]);
    assert NewlinesTo([NL], 1) == NewlinesTo([NL], 0) + 1;
    assert Newlines(t) == 1;
    assert content[0..] == content && content[..0] == [];
    assert NextNl(content, 0) == |content|;
    assert t[80] == NL && NextNl(t, 0) == 80;
    assert t[76] == t[77] == t[78] == 97;
    assert Corrected(t, 79) == 79;
    LinesKeptIff(content, 0, t);
  }

  // ---------- rows ----------

  /** The last counted row meets one more newline exactly at its column limit. */
  predicate EndsAtLimit(t: seq<Byte>, k: nat, i: nat, rows: nat, g: Geometry)
    requires k <= |t| && i <= rows
    decreases rows - i
  {
    var room, e := Room(StartColumn(g, i, rows), 79), NextNl(t, k);
    e - k <= room && e < |t| && if i < rows then EndsAtLimit(t, e + 1, i + 1, rows, g) else e - k == room
  }

  lemma LimitOnward(t: seq<Byte>, k: nat, i: nat, rows: nat, g: Geometry)
    requires i < rows && k <= |t| && NextNl(t, k) < |t|
    requires NextNl(t, k) - k <= Room(StartColumn(g, i, rows), 79)
    ensures EndsAtLimit(t, k, i, rows, g) == EndsAtLimit(t, NextNl(t, k) + 1, i + 1, rows, g)
  {
  }

  /** A row that ends the text, or the last row. */
  lemma StopNewlines(t: seq<Byte>, k: nat, i: nat, rows: nat, g: Geometry)
    requires k <= |t| && i <= rows && NewlinesTo(t, k) == i
    requires i == rows || NextNl(t, k) == |t| || NextNl(t, k) - k > Room(StartColumn(g, i, rows), 79)
    ensures
      var m := NewlinesTo(t, Rows(t, k, i, rows, g));
      m <= rows + 1 && (m == rows + 1 <==> EndsAtLimit(t, k, i, rows, g))
  {
    var room, e, n := Room(StartColumn(g, i, rows), 79), NextNl(t, k), Rows(t, k, i, rows, g);
    RowNewlines(t, k, e);
    if e - k <= room && e < |t| && e - k == room {
      assert n == e + 1;
    } else {
      assert n <= e && !EndsAtLimit(t, k, i, rows, g);
      FewerNewlines(t, n, e);
    }
  }

  lemma {:induction false} RowsNewlines(t: seq<Byte>, k: nat, i: nat, rows: nat, g: Geometry, n: nat, limit: bool)
    requires k <= |t| && i <= rows && NewlinesTo(t, k) == i
    requires n == Rows(t, k, i, rows, g) && limit == EndsAtLimit(t, k, i, rows, g)
    ensures NewlinesTo(t, n) <= rows + 1 && (NewlinesTo(t, n) == rows + 1 <==> limit)
    decreases rows - i
  {
    var e := NextNl(t, k);
    if i == rows || e == |t| || e - k > Room(StartColumn(g, i, rows), 79) {
      StopNewlines(t, k, i, rows, g);
    } else {
      RowNewlines(t, k, e);
      RowsOnward(t, k, i, rows, g);
      LimitOnward(t, k, i, rows, g);
      RowsNewlines(t, e + 1, i + 1, rows, g, n, limit);
    }
  }

  /** A board of at most 15 rows stays one exactly unless the last counted row meets a newline
      at its column limit; then it has 16. */
  lemma RowsKeptIff(content: seq<Byte>, cursor: nat, t: seq<Byte>)
    requires cursor <= |content| && Lines(content) <= BLACKBOARD_ROWS
    ensures
      var g, rows := GeometryAt(content, cursor), NewRows(t, Lines(content));
      var limit := rows > 0 && EndsAtLimit(t, 0, 0, rows, g);
      && (!limit ==> Lines(After(content, cursor, t)) <= BLACKBOARD_ROWS)
      && (limit ==> Lines(After(content, cursor, t)) == BLACKBOARD_ROWS + 1)
  {
    var g, rows := GeometryAt(content, cursor), NewRows(t, Lines(content));
    var n := Accepted(t, g);
    assert content == content[..cursor] + content[cursor..];
    AppendNewlines(content[..cursor], content[cursor..]);
    AppendNewlines(content[..cursor], t[..n]);
    AppendNewlines(content[..cursor] + t[..n], content[cursor..]);
    if rows == 0 {
      OneRowBound(content, cursor, t);
      NoNewlines(t[..n]);
    } else {
      RowsNewlines(t, 0, 0, rows, g, n, EndsAtLimit(t, 0, 0, rows, g));
      NewlinesOfPrefix(t, n);
      FewerNewlines(t, n, |t|);
    }
  }

  /** The buffer stays valid UTF-8. */
  lemma InsertKeepsUtf8(content: seq<Byte>, cursor: nat, t: seq<Byte>)
    requires cursor <= |content| && IsUtf8(content[..cursor]) && IsUtf8(content[cursor..])
    requires IsUtf8(t) && 0 !in t
    ensures IsUtf8(After(content, cursor, t))
  {
    var g := GeometryAt(content, cursor);
    AcceptedIsUtf8(t, g);
    Utf8Append(content[..cursor], t[..Accepted(t, g)]);
    Utf8Append(content[..cursor] + t[..Accepted(t, g)], content[cursor..]);
  }
}
