/** The shared board (src/server/blackboard.c) and the part of board_handler that writes it. */
module Blackboards {
  import opened Commons

  const WELCOME := Bytes("Welcome!")

  function Zeros(n: nat): seq<Byte> { seq(n, _ => 0) }

  const BLANK := Zeros(BLACKBOARD_BYTESIZE)

  /** What every board looks like: the last byte is never used for text. */
  predicate IsBoard(b: seq<Byte>) {
    |b| == BLACKBOARD_BYTESIZE && b[BLACKBOARD_BYTESIZE - 1] == 0
  }

  lemma BoardTextFits(b: seq<Byte>)
    ensures IsBoard(b) ==> |CString(b)| < BLACKBOARD_BYTESIZE
  {
    if IsBoard(b) {
      assert b[BLACKBOARD_BYTESIZE - 1] in b;
      CStringEnds(b);
    }
  }

  /** The part of a text that fits on the board. */
  function Fitting(text: seq<Byte>): seq<Byte> {
    if |text| > BLACKBOARD_BYTESIZE - 1 then text[..BLACKBOARD_BYTESIZE - 1] else text
  }

  /** The board after a fully received update. */
  function Stored(payload: seq<Byte>): (b: seq<Byte>)
    ensures IsBoard(b)
  {
    Fitting(payload) + Zeros(BLACKBOARD_BYTESIZE - |Fitting(payload)|)
  }

  /** A board shows the C string at the head of what was stored, cut to 1199 bytes. */
  lemma StoredText(payload: seq<Byte>)
    ensures CString(Stored(payload)) == Fitting(CString(payload))
  {
    var b, n := Stored(payload), |Fitting(CString(payload))|;
    assert forall i :: 0 <= i < n ==> b[i] == CString(payload)[i];
    assert b[..n] == CString(payload)[..n];
    CStringIs(b, n);
  }

  lemma BlankText()
    ensures IsBoard(BLANK) && CString(BLANK) == []
  {
  }

  method MemSet(a: array<Byte>, value: Byte)
    modifies a
    ensures forall i :: 0 <= i < a.Length ==> a[i] == value
  {
    for k := 0 to a.Length
      invariant forall i :: 0 <= i < k ==> a[i] == value
    {
      a[k] := value;
    }
  }

  method MemCpy(a: array<Byte>, start: nat, source: seq<Byte>)
    requires start + |source| <= a.Length
    modifies a
    ensures a[..] == old(a[..start]) + source + old(a[start + |source|..])
  {
    for k := 0 to |source|
      invariant a[..] == old(a[..start]) + source[..k] + old(a[start + k..])
    {
      a[start + k] := source[k];
    }
  }

  method StrLen(a: array<Byte>) returns (n: nat)
    requires 0 in a[..]
    ensures n < a.Length && n == |CString(a[..])| && a[..n] == CString(a[..])
  {
    n := 0;
    while a[n] != 0
      invariant n < a.Length && 0 !in a[..n]
      decreases a.Length - n
    {
      n := n + 1;
    }
    CStringIs(a[..], n);
  }

  method InitBlackboard() returns (board: array<Byte>)
    ensures fresh(board) && IsBoard(board[..]) && CString(board[..]) == WELCOME
  {
    board := new Byte[BLACKBOARD_BYTESIZE];
    MemSet(board, 0);
    MemCpy(board, 0, WELCOME);
    PrintableHasNoZero("Welcome!");
    assert board[..|WELCOME|] == WELCOME;
    CStringIs(board[..], |WELCOME|);
  }

  /** The section of board_handler that holds the board semaphore. `received` is what recv()
      delivered, None if it failed; `length` is what the header announced, 0 for a clear. */
  method WriteBoard(blackboard: array<Byte>, length: Word, received: Option<seq<Byte>>) returns (ret: int)
    requires blackboard.Length == BLACKBOARD_BYTESIZE
    requires received.Some? ==> |received.value| == length
    modifies blackboard
    ensures ret == if length > 0 && received.None? then -1 else 0
    ensures blackboard[..] == if received.Some? then Stored(received.value) else BLANK
  {
    var n: int := length;
    MemSet(blackboard, 0);
    assert blackboard[..] == BLANK;
    if length > 0 {
      if received.None? {
        return -1;
      }
      if length > 1199 {
        n := 1199;
      }
      MemCpy(blackboard, 0, received.value[..n]);
    }
    assert received.Some? ==> blackboard[..] == Stored(received.value);
    return 0;
  }
}
