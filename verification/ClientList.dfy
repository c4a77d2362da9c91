/** src/server/client_list.c: the doubly linked list with its two extra pointers, counters and iterator. */
module ClientLists {
  import opened Commons
  import opened Permissions

  class Entry {
    const cdata: Client
    var next: Entry?
    var previous: Entry?

    constructor (cdata: Client)
      ensures this.cdata == cdata
    {
      this.cdata := cdata;
      next, previous := null, null;
    }
  }

  function Data(entries: seq<Entry>): (r: seq<Client>)
    ensures |r| == |entries|
    ensures forall i :: 0 <= i < |r| ==> r[i] == entries[i].cdata
  {
    seq(|entries|, i requires 0 <= i < |entries| => entries[i].cdata)
  }

  function Pointee(e: Entry?): Option<Client> {
    if e == null then None else Some(e.cdata)
  }

  /** next and previous mirror each other along the entries, from first to last. */
  ghost predicate Chained(entries: seq<Entry>, first: Entry?, last: Entry?)
    reads entries
  {
    && (forall i, j :: 0 <= i < j < |entries| ==> entries[i] != entries[j])
    && first == (if entries == [] then null else entries[0])
    && last == (if entries == [] then null else entries[|entries| - 1])
    && (forall i {:trigger entries[i].next} :: 0 <= i < |entries| ==>
          entries[i].next == if i + 1 < |entries| then entries[i + 1] else null)
    && (forall i {:trigger entries[i].previous} :: 0 <= i < |entries| ==>
          entries[i].previous == if 0 < i then entries[i - 1] else null)
  }

  lemma DataAppend(entries: seq<Entry>, e: Entry)
    ensures Data(entries + [e]) == Data(entries) + [e.cdata]
  {
  }

  lemma DataWithout(entries: seq<Entry>, k: nat)
    requires k < |entries|
    ensures Data(entries[..k] + entries[k + 1..]) == Data(entries)[..k] + Data(entries)[k + 1..]
  {
  }

  lemma OthersStay(entries: seq<Entry>, k: nat, e: Entry?)
    requires k < |entries| && (e == null || e in entries)
    ensures e == null || e == entries[k] || e in entries[..k] + entries[k + 1..]
  {
    if e != null && e != entries[k] {
      var i :| 0 <= i < |entries| && entries[i] == e;
      assert e == (entries[..k] + entries[k + 1..])[if i < k then i else i - 1];
    }
  }

  /** With distinct ids, comparing two pointers is comparing the clients they point to. */
  lemma PointersAreClients(entries: seq<Entry>, k: nat, e: Entry?)
    requires k < |entries| && DistinctCids(Data(entries)) && (e == null || e in entries)
    ensures e == entries[k] <==> Pointee(e) == Some(entries[k].cdata)
  {
    if e != null && e.cdata == entries[k].cdata {
      var i :| 0 <= i < |entries| && entries[i] == e;
      assert Data(entries)[i].cid == Data(entries)[k].cid;
    }
  }

  /** Taking entry k out and dropping its rights is Removed on the values. */
  lemma TakenOutIsRemoved(entries: seq<Entry>, k: nat, sfd: int, docent: Entry?, write: Entry?)
    requires k == IndexOfSfd(Data(entries), sfd) < |entries| && DistinctCids(Data(entries))
    requires docent == null || docent in entries
    requires write == null || write in entries
    ensures
      var before := ListState(Data(entries), Pointee(docent), Pointee(write));
      var docent' := if docent == entries[k] then null else docent;
      var write' := if write == entries[k] then docent' else write;
      && Listed(before, sfd)
      && ListState(Data(entries[..k] + entries[k + 1..]), Pointee(docent'), Pointee(write')) == Removed(before, sfd)
  {
    DataWithout(entries, k);
    PointersAreClients(entries, k, docent);
    PointersAreClients(entries, k, write);
    assert Data(entries)[k].sfd == sfd;
  }

  class ClientList {
    /** The entries in list order. */
    ghost var Entries: seq<Entry>

    var first: Entry?
    var last: Entry?
    var userDocent: Entry?
    var userWrite: Entry?
    var position: Entry?
    var cidCounter: Word
    var clientCounter: int

    ghost predicate Linked()
      reads this`Entries, this`first, this`last, Entries
    {
      Chained(Entries, first, last)
    }

    ghost predicate Valid()
      reads this`Entries, this`first, this`last, this`userDocent, this`userWrite, this`clientCounter, Entries
    {
      && Linked()
      && clientCounter == |Entries|
      && (userDocent == null || userDocent in Entries)
      && (userWrite == null || userWrite in Entries)
    }

    ghost function View(): ListState
      reads this`Entries, this`userDocent, this`userWrite
    {
      ListState(Data(Entries), Pointee(userDocent), Pointee(userWrite))
    }

    constructor ()
      ensures Valid() && Entries == [] && cidCounter == 0
      ensures View() == ListState([], None, None)
    {
      first, last, userDocent, userWrite, position := null, null, null, null, null;
      cidCounter, clientCounter := 0, 0;
      Entries := [];
    }

    method AddClient(cdata: Client)
      requires Valid()
      modifies this, Entries
      ensures Valid() && View() == Added(old(View()), cdata)
      ensures |Entries| == old(|Entries|) + 1 && Entries[..old(|Entries|)] == old(Entries)
      ensures fresh(Entries[old(|Entries|)])
      ensures cidCounter == old(cidCounter)
    {
      var newEntry := new Entry(cdata);
      Append(newEntry);
      if newEntry.cdata.role == DOCENT {
        userDocent := newEntry;
        userWrite := newEntry;
      }
      clientCounter := clientCounter + 1;
      DataAppend(old(Entries), newEntry);
    }

    /** The pointer part of add_client. */
    method Append(newEntry: Entry)
      requires Linked() && newEntry !in Entries
      modifies this`first, this`last, this`Entries, Entries, newEntry
      ensures Linked() && Entries == old(Entries) + [newEntry]
    {
      if first == null {
        first := newEntry;
      } else {
        last.next := newEntry;
      }
      newEntry.previous := last;
      newEntry.next := null;
      last := newEntry;
      Entries := Entries + [newEntry];
    }

    /** The pointer part of remove_client; `k` is the position of the entry. */
    method Unlink(oldEntry: Entry, ghost k: nat)
      requires Linked() && k < |Entries| && Entries[k] == oldEntry
      modifies this`first, this`last, this`Entries, Entries
      ensures Linked() && Entries == old(Entries)[..k] + old(Entries)[k + 1..]
    {
      if oldEntry.previous == null {
        first := oldEntry.next;
      } else {
        oldEntry.previous.next := oldEntry.next;
      }
      if oldEntry.next == null {
        last := oldEntry.previous;
      } else {
        oldEntry.next.previous := oldEntry.previous;
      }
      Entries := Entries[..k] + Entries[k + 1..];
    }

    /** remove_client once the entry is found: unlink it, pass its permission on, count it out. */
    method TakeOut(oldEntry: Entry, ghost k: nat)
      requires Valid() && k < |Entries| && Entries[k] == oldEntry
      modifies this, Entries
      ensures Valid() && Entries == old(Entries)[..k] + old(Entries)[k + 1..]
      ensures userDocent == if old(userDocent) == oldEntry then null else old(userDocent)
      ensures userWrite == if old(userWrite) == oldEntry then userDocent else old(userWrite)
      ensures cidCounter == old(cidCounter)
    {
      OthersStay(Entries, k, userWrite);
      OthersStay(Entries, k, userDocent);
      Unlink(oldEntry, k);
      if oldEntry == userWrite {
        if oldEntry == userDocent {
          userWrite := null;
        } else {
          userWrite := userDocent;
        }
      }
      if oldEntry == userDocent {
        userDocent := null;
      }
      clientCounter := clientCounter - 1;
    }

    /** The search loop of remove_client. Its body is the test for a missing entry, which
        can never hold there, so the descriptor has to be in the list. */
    method FindForRemoval(sfd: int) returns (oldEntry: Entry, ghost k: nat)
      requires Linked() && Listed(View(), sfd)
      ensures k == IndexOfSfd(Data(Entries), sfd) < |Entries| && oldEntry == Entries[k]
    {
      k := 0;
      var e := first;
      while e != null && e.cdata.sfd != sfd
        invariant 0 <= k <= |Entries|
        invariant e == if k < |Entries| then Entries[k] else null
        invariant forall i :: 0 <= i < k ==> Data(Entries)[i].sfd != sfd
        decreases |Entries| - k
      {
        e := e.next;
        k := k + 1;
      }
      oldEntry := e;
    }

    method RemoveClient(sfd: int) returns (ret: int, ghost k: nat)
      requires Valid() && Listed(View(), sfd)
      modifies this, Entries
      ensures ret == 0 && Valid()
      ensures k == IndexOfSfd(old(Data(Entries)), sfd) < old(|Entries|)
      ensures Entries == old(Entries)[..k] + old(Entries)[k + 1..]
      ensures DistinctCids(old(View()).clients) ==> View() == Removed(old(View()), sfd)
      ensures cidCounter == old(cidCounter)
    {
      var oldEntry;
      oldEntry, k := FindForRemoval(sfd);
      ghost var docent, write := userDocent, userWrite;
      TakeOut(oldEntry, k);
      if DistinctCids(Data(old(Entries))) {
        TakenOutIsRemoved(old(Entries), k, sfd, docent, write);
      }
      ret := 0;
    }

    method DocentExists() returns (r: int)
      ensures r == if View().docent.Some? then 1 else 0
    {
      if userDocent != null { return 1; } else { return 0; }
    }

    method TutorExists() returns (r: int)
      requires Valid() && DistinctCids(View().clients)
      ensures r == if Permissions.TutorExists(View()) then 1 else 0
    {
      if userWrite == null || userDocent == userWrite { return 0; } else { return 1; }
    }

    method GetUserSfd(sfd: int) returns (current: Entry?)
      requires Valid()
      ensures current == null || current in Entries
      ensures Pointee(current) == FindSfd(View().clients, sfd)
    {
      ghost var k := 0;
      current := first;
      while current != null
        invariant 0 <= k <= |Entries|
        invariant current == if k < |Entries| then Entries[k] else null
        invariant forall i :: 0 <= i < k ==> Data(Entries)[i].sfd != sfd
        decreases |Entries| - k
      {
        if current.cdata.sfd == sfd { break; }
        current := current.next;
        k := k + 1;
      }
      assert k == IndexOfSfd(Data(Entries), sfd);
    }

    method GetUserCid(cid: Word) returns (current: Entry?)
      requires Valid()
      ensures current == null || current in Entries
      ensures Pointee(current) == FindCid(View().clients, cid)
    {
      ghost var k := 0;
      current := first;
      while current != null
        invariant 0 <= k <= |Entries|
        invariant current == if k < |Entries| then Entries[k] else null
        invariant forall i :: 0 <= i < k ==> Data(Entries)[i].cid != cid
        decreases |Entries| - k
      {
        if current.cdata.cid == cid { break; }
        current := current.next;
        k := k + 1;
      }
      assert k == IndexOfCid(Data(Entries), cid);
    }

    method HasWriteAccess(sfd: int) returns (result: int)
      ensures result == if Permissions.HasWriteAccess(View(), sfd) then 1 else 0
    {
      result := 0;
      if userWrite != null && userWrite.cdata.sfd == sfd { result := 1; }
    }

    method IsDocent(sfd: int) returns (result: int)
      ensures result == if Permissions.IsDocent(View(), sfd) then 1 else 0
    {
      result := 0;
      if userDocent != null && userDocent.cdata.sfd == sfd { result := 1; }
    }

    method SetWriteUser(user: Entry?)
      requires Valid() && (user == null || user in Entries)
      modifies this`userWrite
      ensures Valid() && View() == old(View()).(writer := Pointee(user))
    {
      userWrite := user;
    }

    /** The counter wraps to zero once, hands zero out, and is put back to the last id. */
    method GetNextCid() returns (cid: Word)
      modifies this`cidCounter
      ensures cid == NextCid(old(cidCounter)) && cidCounter == AfterCid(old(cidCounter))
    {
      cidCounter := (cidCounter + 1) % 0x1_0000;
      cid := cidCounter;
      if cidCounter == 0 {
        cidCounter := (cidCounter - 1) % 0x1_0000;
      }
    }

    method GetClientCount() returns (n: int)
      requires Valid()
      ensures n == |View().clients|
    {
      n := clientCounter;
    }

    method StartIteration() returns (e: Entry?)
      requires Linked()
      modifies this`position
      ensures position == e && e == if Entries == [] then null else Entries[0]
    {
      position := first;
      return first;
    }

    /** `k` is the position of the iterator. */
    method IterationNext(ghost k: nat) returns (e: Entry?)
      requires Linked() && k < |Entries| && position == Entries[k]
      modifies this`position
      ensures position == e && e == if k + 1 < |Entries| then Entries[k + 1] else null
    {
      position := position.next;
      return position;
    }

    method EndIteration()
      modifies this`position
      ensures position == null
    {
      position := null;
    }
  }
}
