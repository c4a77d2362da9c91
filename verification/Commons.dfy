/** Types and constants shared by the server, the archiver and the client. */
module Commons {

  type Byte = b: int | 0 <= b < 0x100
  type Word = w: int | 0 <= w < 0x1_0000

  const BLACKBOARD_COLUMNS := 80
  const BLACKBOARD_ROWS := 15
  const BLACKBOARD_BYTESIZE := BLACKBOARD_COLUMNS * BLACKBOARD_ROWS

  const INDIFFERENT: Byte := 0
  const STUDENT: Byte := 1
  const DOCENT: Byte := 2

  datatype Option<+T> = None | Some(value: T)

  /** The C string that starts a buffer: everything before the first zero byte. */
  function CString(s: seq<Byte>): (r: seq<Byte>)
    ensures r <= s && 0 !in r
    ensures |r| < |s| ==> s[|r|] == 0
  {
    if s == [] || s[0] == 0 then [] else [s[0]] + CString(s[1..])
  }

  /** A C string is determined by where its first zero byte is. */
  lemma {:induction false} CStringIs(s: seq<Byte>, n: nat)
    requires n <= |s| && 0 !in s[..n]
    requires n < |s| ==> s[n] == 0
    ensures CString(s) == s[..n]
  {
    if n == 0 {
    } else {
      assert s[0] == s[..n][0] && s[1..][..n - 1] == s[..n][1..];
      CStringIs(s[1..], n - 1);
    }
  }

  lemma CStringWhole(s: seq<Byte>)
    requires 0 !in s
    ensures CString(s) == s
  {
    assert s[..|s|] == s;
    CStringIs(s, |s|);
  }

  lemma {:induction false} CStringEnds(s: seq<Byte>)
    requires 0 in s
    ensures |CString(s)| < |s|
  {
    if s[0] != 0 {
      CStringEnds(s[1..]);
    }
  }

  /** The bytes of a C string literal. */
  function Bytes(s: string): (r: seq<Byte>)
    ensures |r| == |s|
  {
    seq(|s|, i requires 0 <= i < |s| => s[i] as int % 0x100)
  }

  lemma PrintableHasNoZero(s: string)
    requires forall i :: 0 <= i < |s| ==> ' ' <= s[i] <= '~'
    ensures 0 !in Bytes(s)
  {
    forall i | 0 <= i < |s| ensures Bytes(s)[i] != 0 {
      assert 32 <= s[i] as int <= 126;
    }
  }
}
