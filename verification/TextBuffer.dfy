/** The signal handling around on_insert_text (src/client/gui.c). */
module TextBuffers {
  import opened Commons
  import opened Utf8
  import opened InsertText
  import opened InsertBounds
  import opened InsertExact

  /** Positions in the buffer, `start` before `end`. */
  datatype Selection = Selection(start: nat, end: nat)

  predicate Selects(s: Option<Selection>, content: seq<Byte>) {
    s.Some? ==> s.value.start < s.value.end <= |content|
  }

  /** The text around an insertion: a selected part is replaced. */
  function Ahead(content: seq<Byte>, cursor: nat, s: Option<Selection>): seq<Byte>
    requires cursor <= |content| && Selects(s, content)
  {
    if s.Some? then content[..s.value.start] else content[..cursor]
  }

  function Behind(content: seq<Byte>, cursor: nat, s: Option<Selection>): seq<Byte>
    requires cursor <= |content| && Selects(s, content)
  {
    if s.Some? then content[s.value.end..] else content[cursor..]
  }

  /** The board after a user's insertion: what is accepted depends on the text as it was before a
      selection is deleted. */
  function Replaced(content: seq<Byte>, cursor: nat, s: Option<Selection>, t: seq<Byte>): (r: seq<Byte>)
    requires cursor <= |content| && Selects(s, content)
    ensures s.None? ==> r == After(content, cursor, t)
  {
    Ahead(content, cursor, s) + t[..Accepted(t, GeometryAt(content, cursor))] + Behind(content, cursor, s)
  }

  /** In place of the selection, or at the cursor, stands the longest part of the text that can go in:
      all of it exactly if no row meets the limit. */
  lemma ReplacedIs(content: seq<Byte>, cursor: nat, s: Option<Selection>, t: seq<Byte>) returns (n: nat)
    requires cursor <= |content| && Selects(s, content) && Validates(t)
    ensures CanGo(content, cursor, t, n) && forall q: nat :: CanGo(content, cursor, t, q) ==> q <= n
    ensures Replaced(content, cursor, s, t) == Ahead(content, cursor, s) + t[..n] + Behind(content, cursor, s)
    ensures Replaced(content, cursor, s, t) == Ahead(content, cursor, s) + t + Behind(content, cursor, s)
       <==> CanGo(content, cursor, t, |t|)
  {
    n := Accepted(t, GeometryAt(content, cursor));
    AcceptedIsLongest(content, cursor, t);
    var ahead, behind := Ahead(content, cursor, s), Behind(content, cursor, s);
    assert n == |t| ==> t[..n] == t;
    assert |ahead + t[..n] + behind| == |ahead| + n + |behind|;
  }

  /** What a buffer shows of a text it is set to: GTK inserts nothing that is not valid UTF-8. */
  function Shown(t: seq<Byte>): seq<Byte> {
    if Validates(t) then After([], 0, t) else []
  }

  lemma ValidatesAppend(a: seq<Byte>, b: seq<Byte>)
    requires Validates(a) && Validates(b)
    ensures Validates(a + b)
  {
    Utf8Append(a, b);
  }

  lemma ValidatesParts(t: seq<Byte>, k: nat)
    requires Validates(t) && Boundary(t, k)
    ensures Validates(t[..k]) && Validates(t[k..])
  {
    CutIff(t, k);
  }

  /** Replacing a selection keeps the buffer valid UTF-8. */
  lemma ReplaceKeepsUtf8(content: seq<Byte>, cursor: nat, s: Option<Selection>, t: seq<Byte>)
    requires cursor <= |content| && Selects(s, content) && Validates(t)
    requires Validates(Ahead(content, cursor, s)) && Validates(Behind(content, cursor, s))
    ensures Validates(Replaced(content, cursor, s, t))
  {
    var p := t[..Accepted(t, GeometryAt(content, cursor))];
    AcceptedIsUtf8(t, GeometryAt(content, cursor));
    ValidatesAppend(Ahead(content, cursor, s), p);
    ValidatesAppend(Ahead(content, cursor, s) + p, Behind(content, cursor, s));
  }

  class TextBuffer {
    var content: seq<Byte>
    var selection: Option<Selection>

    /** The static flag insertPreparationAlreadyDone. */
    var prepared: bool

    /** The text is valid, the selection lies between its characters, and is gone in the nested call. */
    ghost predicate Valid()
      reads this
    {
      && Validates(content) && Selects(selection, content)
      && (prepared ==> selection.None?)
      && (selection.Some? ==> Boundary(content, selection.value.start) && Boundary(content, selection.value.end))
    }

    constructor ()
      ensures Valid() && content == [] && selection == None && !prepared
    {
      content, selection, prepared := [], None, false;
    }

    lemma PartsAreValid(cursor: nat)
      requires Valid() && Boundary(content, cursor)
      ensures Validates(Ahead(content, cursor, selection)) && Validates(Behind(content, cursor, selection))
    {
      if selection.Some? {
        ValidatesParts(content, selection.value.start);
        ValidatesParts(content, selection.value.end);
      } else {
        ValidatesParts(content, cursor);
      }
    }

    /** gtk_text_buffer_insert(): refuses a text that is not valid UTF-8, and emits nothing for an
        empty one; else it emits insert-text, then inserts unless a handler stopped that. */
    method Insert(cursor: nat, text: seq<Byte>)
      requires Valid() && Boundary(content, cursor)
      modifies this
      ensures Valid()
      ensures !Validates(text) || text == [] ==>
                content == old(content) && selection == old(selection) && prepared == old(prepared)
      ensures Validates(text) && text != [] ==>
                && !prepared && selection == None
                && content == if old(prepared) then old(content)[..cursor] + text + old(content)[cursor..]
                              else Replaced(old(content), cursor, old(selection), text)
      decreases if prepared then 0 else 1, 1
    {
      if !Validates(text) || text == [] {
        return;
      }
      var stopped := OnInsertText(cursor, text);
      if !stopped {
        PutIn(cursor, text);
      }
    }

    /** The default handler of insert-text. */
    method PutIn(cursor: nat, text: seq<Byte>)
      requires Valid() && Boundary(content, cursor) && Validates(text) && selection == None
      modifies this`content
      ensures Valid()
      ensures content == old(content)[..cursor] + text + old(content)[cursor..]
    {
      ValidatesParts(content, cursor);
      ValidatesAppend(content[..cursor], text);
      ValidatesAppend(content[..cursor] + text, content[cursor..]);
      content := content[..cursor] + text + content[cursor..];
    }

    /** gtk_text_buffer_delete() of the selection, which then is empty at `start`. */
    method DeleteSelection() returns (start: nat)
      requires Valid() && selection.Some?
      modifies this`content, this`selection
      ensures Valid() && selection == None
      ensures start == old(selection).value.start && Boundary(content, start)
      ensures content[..start] == old(content)[..start]
      ensures content[start..] == old(content)[old(selection).value.end..]
    {
      start := selection.value.start;
      var end := selection.value.end;
      ValidatesParts(content, start);
      ValidatesParts(content, end);
      ValidatesAppend(content[..start], content[end..]);
      ghost var was := content;
      content := content[..start] + content[end..];
      selection := None;
      assert content[..start] == was[..start] && content[start..] == was[end..];
      CutIff(content, start);
    }

    /** The handler inserts the accepted prefix itself, which calls it again: the flag lets that
        call pass, since the prefix is valid UTF-8 as well. Then it stops the insertion of the whole
        text. */
    method OnInsertText(cursor: nat, text: seq<Byte>) returns (stopped: bool)
      requires Valid() && Boundary(content, cursor) && Validates(text)
      modifies this
      ensures Valid() && !prepared && stopped == !old(prepared)
      ensures old(prepared) ==> content == old(content) && selection == old(selection)
      ensures !old(prepared) ==> content == Replaced(old(content), cursor, old(selection), text) && selection == None
      decreases if prepared then 0 else 1, 0
    {
      if !prepared {
        ghost var was, selected := content, selection;
        var geometry := GeometryAt(content, cursor);
        GeometryIsSane(content, cursor);
        var location := cursor;
        if selection.Some? {
          location := DeleteSelection();
        }
        assert content[..location] == Ahead(was, cursor, selected);
        assert content[location..] == Behind(was, cursor, selected);
        var insertCount := PrefixLength(text, geometry);
        AcceptedIsUtf8(text, geometry);
        if insertCount > 0 {
          prepared := true;
          Insert(location, text[..insertCount]);
        } else {
          assert content == content[..location] + text[..0] + content[location..];
        }
        stopped := true;
      } else {
        prepared := false;
        stopped := false;
      }
    }

    /** gtk_text_buffer_set_text() of a received board: the old text goes, the new one is inserted
        like one of the user. */
    method SetText(text: seq<Byte>)
      requires Valid() && !prepared
      modifies this
      ensures Valid() && !prepared && selection == None
      ensures content == Shown(text)
    {
      content, selection := [], None;
      Insert(0, text);
      assert text == [] ==> After([], 0, text) == [];
    }
  }
}
