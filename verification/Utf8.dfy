/** UTF-8 (section 4 of RFC 3629) and the part of GLib that the insert handler relies on. */
module Utf8 {
  import opened Commons

  predicate IsTail(b: Byte) { 0x80 <= b <= 0xBF }

  /** The length of the encoded character a text starts with, 0 if it starts with none. */
  function CharLen(t: seq<Byte>): (n: nat)
    ensures n <= |t| && n <= 4
  {
    if t == [] then 0
    else if t[0] <= 0x7F then 1
    else if 0xC2 <= t[0] <= 0xDF && |t| >= 2 && IsTail(t[1]) then 2
    else if 0xE0 <= t[0] <= 0xEF && |t| >= 3 && IsTail(t[1]) && IsTail(t[2])
         && (t[0] == 0xE0 ==> t[1] >= 0xA0) && (t[0] == 0xED ==> t[1] <= 0x9F) then 3
    else if 0xF0 <= t[0] <= 0xF4 && |t| >= 4 && IsTail(t[1]) && IsTail(t[2]) && IsTail(t[3])
         && (t[0] == 0xF0 ==> t[1] >= 0x90) && (t[0] == 0xF4 ==> t[1] <= 0x8F) then 4
    else 0
  }

  /** A sequence of encoded characters. */
  predicate IsUtf8(t: seq<Byte>)
    decreases |t|
  {
    t == [] || (CharLen(t) > 0 && IsUtf8(t[CharLen(t)..]))
  }

  /** g_utf8_validate() of a text whose length is given. */
  predicate Validates(t: seq<Byte>) { IsUtf8(t) && 0 !in t }

  /** g_utf8_next_char(): how far the byte says its character goes; one for a byte that starts none. */
  function Skip(b: Byte): (n: nat)
    ensures 1 <= n <= 6
  {
    if b < 0xC0 then 1
    else if b < 0xE0 then 2
    else if b < 0xF0 then 3
    else if b < 0xF8 then 4
    else if b < 0xFC then 5
    else if b < 0xFE then 6
    else 1
  }

  /** g_utf8_strlen() of the bytes from k to n: complete characters up to the first zero byte; a
      character cut off at the end is not counted. */
  function StrLen(text: seq<Byte>, k: nat, n: nat): nat
    requires k <= n <= |text|
    decreases n - k
  {
    if k == n || text[k] == 0 || k + Skip(text[k]) > n then 0 else 1 + StrLen(text, k + Skip(text[k]), n)
  }

  /** The correction of on_insert_text at the column limit. */
  function Corrected(text: seq<Byte>, n: nat): (r: nat)
    requires n <= |text|
    ensures r <= n <= r + 3
  {
    if n >= 3 && StrLen(text, n - 3, n) == 0 then n - 3
    else if n >= 2 && StrLen(text, n - 2, n) == 0 then n - 2
    else if n >= 1 && StrLen(text, n - 1, n) == 0 then n - 1
    else n
  }

  lemma FirstChar(t: seq<Byte>)
    requires IsUtf8(t) && t != []
    ensures CharLen(t) == Skip(t[0]) > 0 && !IsTail(t[0])
    ensures forall i :: 0 < i < CharLen(t) ==> IsTail(t[i])
  {
  }

  /** More text behind it does not change the first character. */
  lemma CharLenStable(t: seq<Byte>, more: seq<Byte>)
    requires CharLen(t) > 0
    ensures CharLen(t + more) == CharLen(t)
  {
  }

  lemma Utf8Uncons(t: seq<Byte>) returns (n: nat, rest: seq<Byte>)
    requires IsUtf8(t) && t != []
    ensures n == CharLen(t) > 0 && rest == t[n..] && IsUtf8(rest) && |rest| < |t|
  {
    n := CharLen(t);
    rest := t[n..];
  }

  lemma AppendFrom(a: seq<Byte>, b: seq<Byte>, n: nat)
    requires n <= |a|
    ensures (a + b)[n..] == a[n..] + b
  {
  }

  lemma Utf8Cons(t: seq<Byte>, n: nat, rest: seq<Byte>)
    requires n == CharLen(t) > 0 && t[n..] == rest && IsUtf8(rest)
    ensures IsUtf8(t)
  {
  }

  lemma {:induction false} Utf8Append(a: seq<Byte>, b: seq<Byte>)
    requires IsUtf8(a) && IsUtf8(b)
    ensures IsUtf8(a + b)
    decreases |a|
  {
    if a == [] {
      assert a + b == b;
    } else {
      var n, rest := Utf8Uncons(a);
      Utf8Append(rest, b);
      CharLenStable(a, b);
      AppendFrom(a, b, n);
      Utf8Cons(a + b, n, rest + b);
    }
  }

  /** Where the character that byte k belongs to starts. */
  lemma {:induction false} CharAround(t: seq<Byte>, k: nat) returns (b: nat)
    requires IsUtf8(t) && k < |t|
    ensures b <= k < b + CharLen(t[b..])
    ensures IsUtf8(t[..b]) && IsUtf8(t[b..])
    decreases |t|
  {
    var n := CharLen(t);
    if k < n {
      b := 0;
      assert t[b..] == t;
    } else {
      var b' := CharAround(t[n..], k - n);
      b := n + b';
      AfterFirst(t, n, b');
    }
  }

  /** Cutting behind the first character and later again. */
  lemma AfterFirst(t: seq<Byte>, n: nat, b: nat)
    requires n == CharLen(t) > 0 && b <= |t| - n && IsUtf8(t[n..][..b])
    ensures IsUtf8(t[..n + b]) && t[n..][b..] == t[n + b..]
  {
    OneChar(t);
    Utf8Append(t[..n], t[n..][..b]);
    assert t[..n] + t[n..][..b] == t[..n + b];
  }

  /** A character is a byte that is no tail and tells its length, then tails. */
  lemma CharAt(t: seq<Byte>, b: nat)
    requires b < |t| && IsUtf8(t[b..])
    ensures !IsTail(t[b]) && b + Skip(t[b]) <= |t| && Skip(t[b]) == CharLen(t[b..]) <= 4
    ensures forall i :: b < i < b + Skip(t[b]) ==> IsTail(t[i])
  {
    FirstChar(t[b..]);
    forall i | b < i < b + Skip(t[b]) ensures IsTail(t[i]) {
      assert t[i] == t[b..][i - b];
    }
  }

  lemma OneChar(t: seq<Byte>)
    requires CharLen(t) > 0
    ensures IsUtf8(t[..CharLen(t)])
  {
    assert CharLen(t[..CharLen(t)]) == CharLen(t);
  }

  /** A byte that is no tail starts a character; text may be cut before and after it. */
  lemma StartsHere(t: seq<Byte>, k: nat)
    requires IsUtf8(t) && k < |t| && !IsTail(t[k])
    ensures IsUtf8(t[..k]) && IsUtf8(t[k..])
    ensures k + Skip(t[k]) <= |t| && IsUtf8(t[..k + Skip(t[k])])
  {
    var b := CharAround(t, k);
    CharAt(t, b);
    assert b == k;
    OneMore(t, k, Skip(t[k]));
  }

  /** The character at k belongs to the text up to its end. */
  lemma OneMore(t: seq<Byte>, k: nat, n: nat)
    requires k < |t| && IsUtf8(t[..k]) && n == CharLen(t[k..]) > 0
    ensures k + n <= |t| && IsUtf8(t[..k + n])
  {
    var head, next := t[..k], t[k..][..n];
    OneChar(t[k..]);
    Utf8Append(head, next);
    assert head + next == t[..k + n];
  }

  /** g_utf8_strlen() of the last bytes is zero exactly if a character starts there and goes on. */
  lemma ShortStrLen(t: seq<Byte>, k: nat, n: nat)
    requires k < n <= |t| && 0 !in t
    ensures StrLen(t, k, n) == 0 <==> Skip(t[k]) > n - k
  {
    assert t[k] in t;
  }

  /** That character is the one around n. */
  lemma ReachesOver(t: seq<Byte>, k: nat, b: nat, n: nat)
    requires IsUtf8(t) && 0 !in t && k < n < |t|
    requires b <= n && IsUtf8(t[b..]) && n < b + CharLen(t[b..])
    ensures StrLen(t, k, n) == 0 <==> k == b
  {
    ShortStrLen(t, k, n);
    CharAt(t, b);
    if !IsTail(t[k]) && k != b {
      StartsHere(t, k);
      CharAt(t, k);
    }
  }

  /** The three tests of the correction together. */
  lemma CorrectedIs(t: seq<Byte>, n: nat, b: nat)
    requires b <= n <= |t| && n <= b + 3
    requires forall k {:trigger StrLen(t, k, n)} :: 0 <= k < n ==> (StrLen(t, k, n) == 0 <==> k == b)
    ensures Corrected(t, n) == b
  {
    if n >= 3 { assert StrLen(t, n - 3, n) == 0 <==> n - 3 == b; }
    if n >= 2 { assert StrLen(t, n - 2, n) == 0 <==> n - 2 == b; }
    if n >= 1 { assert StrLen(t, n - 1, n) == 0 <==> n - 1 == b; }
  }

  /** Where valid text may be cut (see CutIff). */
  predicate Boundary(t: seq<Byte>, k: nat) {
    k <= |t| && (k < |t| ==> !IsTail(t[k]))
  }

  /** At a byte of valid text the correction goes back to the last character boundary, and no
      further. */
  lemma CorrectedIsFloor(t: seq<Byte>, n: nat)
    requires IsUtf8(t) && 0 !in t && n < |t|
    ensures Boundary(t, Corrected(t, n))
    ensures forall q :: Corrected(t, n) < q <= n ==> IsTail(t[q])
  {
    var b := CharAround(t, n);
    CharAt(t, b);
    forall k {:trigger StrLen(t, k, n)} | 0 <= k < n ensures StrLen(t, k, n) == 0 <==> k == b {
      ReachesOver(t, k, b, n);
    }
    CorrectedIs(t, n, b);
  }

  /** Both parts of a valid text are valid exactly if it is cut at a boundary. */
  lemma CutIff(t: seq<Byte>, k: nat)
    requires IsUtf8(t) && k <= |t|
    ensures IsUtf8(t[..k]) <==> Boundary(t, k)
    ensures Boundary(t, k) ==> IsUtf8(t[k..])
  {
    if k == |t| {
      assert t[..k] == t;
    } else if !IsTail(t[k]) {
      StartsHere(t, k);
    } else if IsUtf8(t[..k]) {
      var b := CharAround(t, k);
      CharAt(t, b);
      WholeInside(t, b, k);
    }
  }

  /** A byte below 128 is a character by itself. */
  lemma AsciiIsAlone(t: seq<Byte>, e: nat)
    requires IsUtf8(t) && e < |t| && t[e] <= 0x7F
    ensures Boundary(t, e) && Boundary(t, e + 1)
  {
    StartsHere(t, e);
    CutIff(t, e + 1);
  }

  /** If the text before k is valid, a character that starts before k ends there. */
  lemma WholeInside(t: seq<Byte>, b: nat, k: nat)
    requires b < k <= |t| && IsUtf8(t[..k]) && !IsTail(t[b])
    ensures b + CharLen(t[b..]) <= k
  {
    var all, head, more := t[..k], t[..k][b..], t[k..];
    assert all[b] == t[b];
    StartsHere(all, b);
    FirstChar(head);
    CharLenStable(head, more);
    assert head + more == t[b..];
  }
}
