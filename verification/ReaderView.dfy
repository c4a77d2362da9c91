/**
 What a reader sees of a board: updateBoard (src/client/client.c) puts the received text into an
 empty buffer. GTK refuses it there unless it is valid UTF-8, and on_insert_text cuts it like any
 other insertion.
 */
module ReaderView {
  import opened Commons
  import opened Protocol
  import opened Blackboards
  import opened InsertText
  import opened InsertBounds
  import opened Utf8
  import opened TextBuffers
  import Broadcasting
  import Handshake
  import Wire

  /** The lengths of the lines from k on, without their newlines. */
  function LineLengths(t: seq<Byte>, k: nat): (r: seq<nat>)
    requires k <= |t|
    ensures r != [] && r[0] == NextNl(t, k) - k
    decreases |t| - k
  {
    var e := NextNl(t, k);
    [e - k] + if e < |t| then LineLengths(t, e + 1) else []
  }

  lemma {:induction false} CountLengths(t: seq<Byte>, k: nat)
    requires k <= |t|
    ensures |LineLengths(t, k)| == Newlines(t) - NewlinesTo(t, k) + 1
    decreases |t| - k
  {
    var e := NextNl(t, k);
    RowNewlines(t, k, e);
    if e < |t| { CountLengths(t, e + 1); }
  }

  /** Lines that the row loop lets in when `left` counted newlines are still to come. */
  predicate LetIn(lengths: seq<nat>, left: nat)
    requires |lengths| > left
    decreases left
  {
    if left > 0 then lengths[0] <= 79 && LetIn(lengths[1..], left - 1)
    else if |lengths| == 1 then lengths[0] <= 80
    else |lengths| == 2 && lengths[0] == 80 && lengths[1] == 0
  }

  const EMPTY := Geometry(0, 0, 0, 1)

  lemma EmptyGeometry()
    ensures GeometryAt([], 0) == EMPTY
  {
    var none: seq<Byte> := [];
    assert none[..0] == none && none[0..] == none;
  }

  lemma RoomInEmpty(i: nat, rows: nat)
    requires 0 < rows && i <= rows
    ensures Room(StartColumn(EMPTY, i, rows), 79) == if i < rows then 79 else 80
  {
  }

  /** The same read off the text from k on. */
  predicate RowsLetIn(t: seq<Byte>, k: nat, left: nat)
    requires k <= |t|
    decreases left
  {
    var e := NextNl(t, k);
    if left > 0 then e < |t| && e - k <= 79 && RowsLetIn(t, e + 1, left - 1)
    else if e == |t| then e - k <= 80
    else e - k == 80 && e + 1 == |t|
  }

  lemma RowGoesOn(t: seq<Byte>, k: nat, i: nat, rows: nat, e: nat)
    requires k <= |t| && 0 < rows && i < rows && e == NextNl(t, k) < |t| && e - k <= 79
    ensures Rows(t, k, i, rows, EMPTY) == Rows(t, e + 1, i + 1, rows, EMPTY)
  {
    RoomInEmpty(i, rows);
    RowsOnward(t, k, i, rows, EMPTY);
  }

  lemma RowIsCut(t: seq<Byte>, k: nat, i: nat, rows: nat, e: nat)
    requires k <= |t| && 0 < rows && i < rows && e == NextNl(t, k) && e - k > 79
    ensures Rows(t, k, i, rows, EMPTY) < |t|
  {
    RoomInEmpty(i, rows);
  }

  lemma LastRowWhole(t: seq<Byte>, k: nat, rows: nat)
    requires k <= |t| && 0 < rows
    ensures Rows(t, k, rows, rows, EMPTY) == |t| <==> RowsLetIn(t, k, 0)
  {
    RoomInEmpty(rows, rows);
  }

  lemma {:induction false} RowsWhole(t: seq<Byte>, k: nat, i: nat, rows: nat)
    requires k <= |t| && 0 < rows && i <= rows && NewlinesTo(t, k) + rows - i <= Newlines(t)
    ensures Rows(t, k, i, rows, EMPTY) == |t| <==> RowsLetIn(t, k, rows - i)
    decreases rows - i
  {
    if i == rows {
      LastRowWhole(t, k, rows);
    } else {
      var e := NextNl(t, k);
      RowNewlines(t, k, e);
      if e - k > 79 {
        RowIsCut(t, k, i, rows, e);
      } else {
        RowGoesOn(t, k, i, rows, e);
        RowsWhole(t, e + 1, i + 1, rows);
      }
    }
  }

  lemma {:induction false} LengthsLetIn(t: seq<Byte>, k: nat, left: nat, lengths: seq<nat>)
    requires k <= |t| && lengths == LineLengths(t, k) && |lengths| > left
    ensures RowsLetIn(t, k, left) <==> LetIn(lengths, left)
    decreases left
  {
    var e := NextNl(t, k);
    if e < |t| {
      var more := LineLengths(t, e + 1);
      assert lengths == [e - k] + more && lengths[1..] == more;
      if left > 0 {
        LengthsLetIn(t, e + 1, left - 1, more);
      } else {
        assert |more| == 1 <==> NextNl(t, e + 1) == |t|;
      }
    }
  }

  lemma {:induction false} LetInMeans(lengths: seq<nat>, left: nat)
    requires |lengths| > left
    ensures LetIn(lengths, left) <==>
      && (forall i :: 0 <= i < left ==> lengths[i] <= 79)
      && (if |lengths| == left + 1 then lengths[left] <= 80
          else |lengths| == left + 2 && lengths[left] == 80 && lengths[left + 1] == 0)
    decreases left
  {
    if left > 0 {
      var rest := lengths[1..];
      LetInMeans(rest, left - 1);
      assert (forall i :: 0 <= i < left ==> lengths[i] <= 79) <==>
             (lengths[0] <= 79 && forall i :: 0 <= i < left - 1 ==> rest[i] <= 79) by {
        assert forall i :: 0 <= i < left - 1 ==> rest[i] == lengths[i + 1];
      }
    }
  }

  /** One line of at most 79 bytes; or up to 15 lines, the last of at most 80 bytes and the others
      of at most 79; or 15 lines with a newline behind them, the fifteenth of exactly 80 bytes. */
  predicate ShownWhole(lengths: seq<nat>)
    requires lengths != []
  {
    var n := |lengths|;
    if n == 1 then lengths[0] <= 79
    else if n <= BLACKBOARD_ROWS then (forall i :: 0 <= i < n - 1 ==> lengths[i] <= 79) && lengths[n - 1] <= 80
    else n == 16 && (forall i :: 0 <= i < 14 ==> lengths[i] <= 79) && lengths[14] == 80 && lengths[15] == 0
  }

  lemma OneLine(t: seq<Byte>, lengths: seq<nat>)
    requires lengths == LineLengths(t, 0) && |lengths| == 1
    ensures OneRow(t, EMPTY) == |t| <==> lengths[0] <= 79
  {
    assert Room(1, 80) == 79;
    assert NextNl(t, 0) == |t|;
  }

  lemma ManyLines(lengths: seq<nat>, rows: nat)
    requires |lengths| > 1 && rows == if |lengths| - 1 < 14 then |lengths| - 1 else 14
    ensures LetIn(lengths, rows) <==> ShownWhole(lengths)
  {
    LetInMeans(lengths, rows);
  }

  lemma WholeIff(t: seq<Byte>)
    ensures Accepted(t, EMPTY) == |t| <==> ShownWhole(LineLengths(t, 0))
  {
    var lengths, rows := LineLengths(t, 0), NewRows(t, 1);
    CountLengths(t, 0);
    if rows == 0 {
      OneLine(t, lengths);
    } else {
      RowsWhole(t, 0, 0, rows);
      LengthsLetIn(t, 0, rows, lengths);
      ManyLines(lengths, rows);
    }
  }

  lemma AfterEmpty(t: seq<Byte>)
    ensures After([], 0, t) == t[..Accepted(t, EMPTY)]
  {
    EmptyGeometry();
    var none: seq<Byte> := [];
    assert none[..0] + t[..Accepted(t, EMPTY)] + none[0..] == t[..Accepted(t, EMPTY)];
  }

  /** A buffer shows the text it is set to whole exactly if it is valid UTF-8 and its lines are of
      these lengths. */
  lemma ShownIff(t: seq<Byte>)
    requires 0 !in t
    ensures Shown(t) == t <==> IsUtf8(t) && ShownWhole(LineLengths(t, 0))
  {
    AfterEmpty(t);
    WholeIff(t);
  }

  lemma {:induction false} RowsAtLeast(t: seq<Byte>, k: nat, i: nat, rows: nat)
    requires k <= |t| && 0 < rows && i <= rows
    ensures k <= Rows(t, k, i, rows, EMPTY)
    decreases rows - i
  {
    RoomInEmpty(i, rows);
    if i < rows && NextNl(t, k) < |t| { RowsAtLeast(t, NextNl(t, k) + 1, i + 1, rows); }
  }

  lemma NoRows(t: seq<Byte>)
    requires NewRows(t, 1) == 0
    ensures NextNl(t, 0) == |t|
  {
    CountLengths(t, 0);
  }

  lemma SomethingAccepted(t: seq<Byte>)
    requires t != []
    ensures Accepted(t, EMPTY) > 0
  {
    var rows := NewRows(t, 1);
    if rows > 0 {
      RoomInEmpty(0, rows);
      if NextNl(t, 0) < |t| { RowsAtLeast(t, NextNl(t, 0) + 1, 1, rows); }
    } else {
      NoRows(t);
    }
  }

  /** It shows nothing at all exactly if the text is empty or not valid. */
  lemma NothingShownIff(t: seq<Byte>)
    requires 0 !in t
    ensures Shown(t) == [] <==> t == [] || !IsUtf8(t)
  {
    AfterEmpty(t);
    if t != [] { SomethingAccepted(t); }
  }

  /** From the server's board to the reader's view: the message brings the whole text, and the view
      shows it whole, or not at all, exactly under these conditions. */
  lemma ReaderSeesBoard(board: seq<Byte>)
    requires IsBoard(board)
    ensures
      var text := CString(board);
      && Wire.Decode(Wire.Encode(Board(text))) == [Board(text)]
      && (Shown(text) == text <==> IsUtf8(text) && ShownWhole(LineLengths(text, 0)))
      && (Shown(text) == [] <==> text == [] || !IsUtf8(text))
  {
    Broadcasting.BoardArrives(board);
    ShownIff(CString(board));
    NothingShownIff(CString(board));
  }

  // ---------- from the writer to the readers ----------

  /** The cut at 1199 bytes does not fall inside a character. */
  predicate CutBetween(t: seq<Byte>) {
    |t| < BLACKBOARD_BYTESIZE || !IsTail(t[BLACKBOARD_BYTESIZE - 1])
  }

  lemma StoredValid(t: seq<Byte>)
    requires 0 !in t
    ensures CString(Stored(t)) == Fitting(t)
  {
    StoredText(t);
    CStringWhole(t);
  }

  /** The server keeps a valid text valid exactly if it does not cut it inside a character. */
  lemma CutIsUtf8Iff(t: seq<Byte>)
    requires Validates(t)
    ensures IsUtf8(CString(Stored(t))) <==> CutBetween(t)
  {
    StoredValid(t);
    if |t| >= BLACKBOARD_BYTESIZE { CutIff(t, BLACKBOARD_BYTESIZE - 1); }
  }

  /** What a writer's update shows at its readers: all of it exactly if it fits and has lines of
      these lengths, nothing exactly if it is empty or cut inside a character. */
  lemma UpdateSeenIff(t: seq<Byte>)
    requires Validates(t)
    ensures Shown(CString(Stored(t))) == t <==> |t| < BLACKBOARD_BYTESIZE && ShownWhole(LineLengths(t, 0))
    ensures Shown(CString(Stored(t))) == [] <==> t == [] || !CutBetween(t)
  {
    var text := CString(Stored(t));
    StoredValid(t);
    CutIsUtf8Iff(t);
    NothingShownIff(text);
    if |t| < BLACKBOARD_BYTESIZE {
      ShownIff(t);
    } else {
      AfterEmpty(text);
      assert |Shown(text)| <= |text| < |t|;
    }
  }

  /** The step that copies an update onto the board. */
  predicate Stores(s: Handshake.State, c: Handshake.Choice) {
    c.Go? && c.i < |s.threads| && s.threads[c.i].UpdateCopy? && c.received.Some?
  }

  lemma BoardTextStep(s: Handshake.State, c: Handshake.Choice, s': Handshake.State)
    requires Handshake.Enabled(s, c) && s' == Handshake.Next(s, c)
    ensures CString(s'.board) ==
      if Stores(s, c) then CString(Stored(c.received.value))
      else if s'.board == s.board then CString(s.board) else []
  {
    BlankText();
  }

  ghost predicate ValidUpdates(states: seq<Handshake.State>, choices: seq<Handshake.Choice>)
    requires |states| == |choices| + 1
  {
    forall k :: 0 <= k < |choices| && Stores(states[k], choices[k]) ==> Validates(choices[k].received.value)
  }

  ghost predicate CutsBetween(states: seq<Handshake.State>, choices: seq<Handshake.Choice>, n: nat)
    requires |states| == |choices| + 1 && n <= |choices|
  {
    forall k :: 0 <= k < n && Stores(states[k], choices[k]) ==> CutBetween(choices[k].received.value)
  }

  lemma BoardTextAt(states: seq<Handshake.State>, choices: seq<Handshake.Choice>, k: nat)
    requires Handshake.Run(states, choices) && k < |choices| && ValidUpdates(states, choices)
    ensures Stores(states[k], choices[k]) ==>
      (IsUtf8(CString(states[k + 1].board)) <==> CutBetween(choices[k].received.value))
    ensures !Stores(states[k], choices[k]) && IsUtf8(CString(states[k].board)) ==>
      IsUtf8(CString(states[k + 1].board))
  {
    assert Handshake.StepAt(states, choices, k);
    BoardTextStep(states[k], choices[k], states[k + 1]);
    if Stores(states[k], choices[k]) { CutIsUtf8Iff(choices[k].received.value); }
  }

  lemma {:induction false} BoardStaysUtf8(states: seq<Handshake.State>, choices: seq<Handshake.Choice>, n: nat)
    requires Handshake.Run(states, choices) && n <= |choices| && ValidUpdates(states, choices)
    requires IsUtf8(CString(states[0].board)) && CutsBetween(states, choices, n)
    ensures IsUtf8(CString(states[n].board))
  {
    if n > 0 {
      BoardStaysUtf8(states, choices, n - 1);
      BoardTextAt(states, choices, n - 1);
    }
  }

  /** In a run whose updates are valid UTF-8 the board is so in every state exactly if no update
      was cut inside a character. */
  lemma BoardUtf8Iff(states: seq<Handshake.State>, choices: seq<Handshake.Choice>)
    requires Handshake.Run(states, choices) && ValidUpdates(states, choices)
    requires IsUtf8(CString(states[0].board))
    ensures (forall n :: 0 <= n <= |choices| ==> IsUtf8(CString(states[n].board)))
       <==> CutsBetween(states, choices, |choices|)
  {
    if CutsBetween(states, choices, |choices|) {
      forall n | 0 <= n <= |choices| ensures IsUtf8(CString(states[n].board)) {
        BoardStaysUtf8(states, choices, n);
      }
    } else {
      var k :| 0 <= k < |choices| && Stores(states[k], choices[k]) && !CutBetween(choices[k].received.value);
      BoardTextAt(states, choices, k);
    }
  }

  /** A board with lines of at most 80 bytes that no reader sees whole: a full line and a newline,
      of which the reader is shown 79 bytes. */
  lemma FullLineIsCut()
    ensures
      var t := Plain(80) + [NL];
      && LinesWithin(t) && Lines(t) == 2 && Validates(t)
      && Shown(t) == Plain(79)
  {
    var t := Plain(80) + [NL];
    AsciiIsUtf8(t);
    assert NL !in Plain(80);
    BrokenLine(0, Plain(80));
    NoNewlines(Plain(80));
    AppendNewlines(Plain(80), [NL]);
    assert NewlinesTo([NL], 1) == NewlinesTo([NL], 0) + 1;
    EmptyGeometry();
    assert t[80] == NL && NextNl(t, 0) == 80;
    assert t[76] == t[77] == t[78] == 97;
    assert Corrected(t, 79) == 79;
    RoomInEmpty(0, 1);
    assert Accepted(t, EMPTY) == 79;
    var none: seq<Byte> := [];
    assert none[..0] + t[..79] + none[0..] == Plain(79);
  }

  // ---------- a board that nobody sees ----------

  /** 14 full rows, and a last one of 78 letters and an umlaut. */
  function FullBoard(): (r: seq<Byte>)
    ensures |r| == 1200
  {
    seq(1200, i requires 0 <= i < 1200 =>
      if i == 1198 then 0xC3 else if i == 1199 then 0xA4 else if i % 80 == 79 then NL else 97)
  }

  lemma UmlautBehind(a: seq<Byte>, umlaut: seq<Byte>)
    requires Validates(a) && umlaut == [0xC3, 0xA4]
    ensures Validates(a + umlaut)
  {
    assert CharLen(umlaut) == 2 && umlaut[2..] == [];
    ValidatesAppend(a, umlaut);
  }

  lemma FullBoardIsText(t: seq<Byte>)
    requires t == FullBoard()
    ensures Validates(t) && IsTail(t[1199])
  {
    var a, umlaut := t[..1198], t[1198..];
    assert umlaut == [0xC3, 0xA4] && t == a + umlaut;
    assert forall k :: 0 <= k < |a| ==> 0 < a[k] <= 0x7F;
    AsciiIsUtf8(a);
    UmlautBehind(a, umlaut);
  }

  lemma {:induction false} FullNewlines(t: seq<Byte>, k: nat)
    requires t == FullBoard() && k <= |t|
    ensures NewlinesTo(t, k) == if k < |t| then k / 80 else 14
  {
    if k > 0 { FullNewlines(t, k - 1); }
  }

  lemma NextNlIs(t: seq<Byte>, k: nat, e: nat)
    requires k <= e <= |t| && (e < |t| ==> t[e] == NL) && forall i :: k <= i < e ==> t[i] != NL
    ensures NextNl(t, k) == e
  {
  }

  lemma {:induction false} FullRows(t: seq<Byte>, left: nat)
    requires t == FullBoard() && left <= 14
    ensures RowsLetIn(t, 80 * (14 - left), left)
  {
    var k := 80 * (14 - left);
    if left > 0 {
      NextNlIs(t, k, k + 79);
      FullRows(t, left - 1);
    } else {
      NextNlIs(t, k, 1200);
    }
  }

  lemma FullNewRows(t: seq<Byte>) returns (rows: nat)
    requires t == FullBoard()
    ensures rows == NewRows(t, 1) == Newlines(t) == 14
  {
    FullNewlines(t, |t|);
    rows := NewRows(t, 1);
  }

  lemma AcceptedWhole(t: seq<Byte>, rows: nat)
    requires rows == NewRows(t, 1) == Newlines(t) && 0 < rows && RowsLetIn(t, 0, rows)
    ensures After([], 0, t) == t
  {
    RowsWhole(t, 0, 0, rows);
    AfterEmpty(t);
  }

  lemma FullBoardIsAccepted(t: seq<Byte>)
    requires t == FullBoard()
    ensures After([], 0, t) == t
  {
    var rows := FullNewRows(t);
    FullRows(t, rows);
    AcceptedWhole(t, rows);
  }

  /** The writer's client takes the whole board, the server cuts its last byte, and the readers'
      boards go blank. */
  lemma LostToAllReaders(t: seq<Byte>)
    requires t == FullBoard()
    ensures Validates(t) && Shown(t) == t
    ensures !IsUtf8(CString(Stored(t))) && Shown(CString(Stored(t))) == []
  {
    FullBoardIsText(t);
    FullBoardIsAccepted(t);
    CutIsUtf8Iff(t);
    UpdateSeenIff(t);
  }
}
