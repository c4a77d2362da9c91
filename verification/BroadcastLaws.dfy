/** What the broadcasts bring to each client. */
module BroadcastLaws {
  import opened Commons
  import opened Protocol
  import opened Permissions
  import opened Blackboards
  import opened Runs
  import opened Wire
  import opened Broadcasting
  import opened ClientThread
  import HandlerLaws
  import RunSafety

  /** How many packets go to a descriptor. */
  function To(sends: seq<Packet>, sfd: int): nat {
    if sends == [] then 0
    else To(sends[..|sends| - 1], sfd) + if sends[|sends| - 1].sfd == sfd then 1 else 0
  }

  // ---------- the status ----------

  lemma WriterHasAccess(s: System, i: nat)
    requires Inv(s) && i < |s.list.clients|
    ensures s.list.writer == Some(s.list.clients[i]) <==> HasWriteAccess(s.list, s.list.clients[i].sfd)
  {
    assert s.list.clients[i] in s.list.clients;
    RunSafety.AccessIsWriting(s.list, s.list.clients[i]);
  }

  /** The status message of client i. */
  function StatusOf(l: ListState, i: nat): ServerMessage
    requires i < |l.clients|
  {
    var d, t := if l.docent.Some? then 1 else 0, if TutorExists(l) then 1 else 0;
    Statuses(l, d, t, (|l.clients| - d - t) % 0x1_0000)[i].message
  }

  /** It is about this client, and true. */
  predicate IsTrue(l: ListState, c: Client, m: ServerMessage) {
    && m.Status? && m.role == c.role && m.cid == c.cid
    && m.write <= 1 && (m.write == 1 <==> HasWriteAccess(l, c.sfd))
    && m.dcount == Count(l.clients, IsLeader())
    && m.tcount == Count(l.clients, IsTutor(l))
    && m.scount == Count(l.clients, IsStudent(l))
  }

  lemma StatusIsTrue(s: System, i: nat)
    requires Inv(s) && OneDocent(s.list) && i < |s.list.clients|
    ensures IsTrue(s.list, s.list.clients[i], StatusOf(s.list, i))
  {
    CountsAreTrue(s);
    WriterHasAccess(s, i);
  }

  lemma StatusSent(l: ListState, i: nat)
    requires i < |l.clients|
    ensures |StatusPackets(l)| == |l.clients|
    ensures StatusPackets(l)[i] == Packet(l.clients[i].sfd, Encode(StatusOf(l, i)))
  {
  }

  lemma StatusArrives(l: ListState, i: nat, m: ServerMessage)
    requires i < |l.clients| && m == StatusOf(l, i)
    ensures Decode(Encode(m)) == [m]
  {
    OneMessage(m);
  }

  /** Each client is told its own role and id, that it may write exactly if it may, and the true
      numbers of docents, tutors and other students. */
  lemma StatusLaw(s: System, i: nat) returns (m: ServerMessage)
    requires Inv(s) && OneDocent(s.list) && i < |s.list.clients|
    ensures |StatusPackets(s.list)| == |s.list.clients|
    ensures
      var packet, c := StatusPackets(s.list)[i], s.list.clients[i];
      packet.sfd == c.sfd && Decode(packet.bytes) == [m] && IsTrue(s.list, c, m)
  {
    m := StatusOf(s.list, i);
    StatusIsTrue(s, i);
    StatusSent(s.list, i);
    StatusArrives(s.list, i, m);
  }

  /** At most one client is told that it may write. */
  lemma OneMayWrite(s: System, i: nat, j: nat)
    requires Inv(s) && i < |s.list.clients| && j < |s.list.clients|
    requires HasWriteAccess(s.list, s.list.clients[i].sfd) && HasWriteAccess(s.list, s.list.clients[j].sfd)
    ensures i == j
  {
  }

  lemma {:induction false} ToEachOnce(sends: seq<Packet>, clients: seq<Client>, sfd: int)
    requires |sends| == |clients| && DistinctSfds(clients)
    requires forall i :: 0 <= i < |sends| ==> sends[i].sfd == clients[i].sfd
    ensures To(sends, sfd) == if exists i :: 0 <= i < |clients| && clients[i].sfd == sfd then 1 else 0
  {
    if clients != [] {
      var n := |clients| - 1;
      ToEachOnce(sends[..n], clients[..n], sfd);
      if i :| 0 <= i < n && clients[..n][i].sfd == sfd { assert clients[i].sfd == sfd; }
      if i :| 0 <= i < n && clients[i].sfd == sfd { assert clients[..n][i].sfd == sfd; }
      assert clients[n].sfd == sfd ==> exists i :: 0 <= i < |clients| && clients[i].sfd == sfd;
    }
  }

  /** A status broadcast sends one packet to every client in the list and none to anybody else. */
  lemma StatusOnce(s: System, sfd: int)
    requires Inv(s)
    ensures To(StatusPackets(s.list), sfd) == if Listed(s.list, sfd) then 1 else 0
  {
    ToEachOnce(StatusPackets(s.list), s.list.clients, sfd);
  }

  // ---------- the board ----------

  lemma {:induction false} OnlyCopies(sends: seq<Packet>, sfd: int, bytes: seq<Byte>)
    requires forall p <- sends :: p.bytes == bytes
    ensures To(sends, sfd) == Copies(sends, sfd, bytes)
  {
    if sends != [] {
      OnlyCopies(sends[..|sends| - 1], sfd, bytes);
    }
  }

  /** A board broadcast sends that board once to every client in the list that is not excluded, and
      nothing else to anybody. */
  lemma BoardLaw(s: System, excluded: Option<Client>, message: ServerMessage, sfd: int)
    requires Inv(s) && (excluded == None || excluded == s.list.writer)
    ensures
      var sends := Boards(s.list.clients, excluded, message);
      && Copies(sends, sfd, Encode(message)) == To(sends, sfd)
      && To(sends, sfd) ==
           if Listed(s.list, sfd) && !(excluded.Some? && HasWriteAccess(s.list, sfd)) then 1 else 0
  {
    var l := s.list;
    BoardOnce(l.clients, excluded, message, sfd);
    OnlyCopies(Boards(l.clients, excluded, message), sfd, Encode(message));
    forall i | 0 <= i < |l.clients|
      ensures excluded != Some(l.clients[i]) <==> !(excluded.Some? && HasWriteAccess(l, l.clients[i].sfd))
    {
      WriterHasAccess(s, i);
    }
  }

  /** The board of a message, if nobody interrupts its handler and the broadcast it triggers. */
  function Spread(l: ListState, b: seq<Byte>, sfd: int, m: Incoming): seq<Packet> {
    var o := Handle(l, b, sfd, m);
    if o.effect.Effect? && o.effect.trigger.Some? then BroadcastOf(o.effect.trigger.value, o.list, o.board) else []
  }

  /** A clear of the writer brings the blank board to every client in the list, the writer too. */
  lemma ClearReachesAll(s: System, b: seq<Byte>, c: Client, sfd: int)
    requires Inv(s) && IsBoard(b) && s.list.writer == Some(c)
    ensures
      var sends := Spread(s.list, b, c.sfd, Clear(0));
      && Copies(sends, sfd, Encode(Board([]))) == To(sends, sfd)
      && To(sends, sfd) == (if Listed(s.list, sfd) then 1 else 0)
      && Decode(Encode(Board([]))) == [Board([])]
  {
    BlankText();
    BoardLaw(s, None, Board([]), sfd);
    OneMessage(Board([]));
  }

  lemma UpdateSpreads(s: System, b: seq<Byte>, c: Client, m: Incoming, text: seq<Byte>)
    requires Inv(s) && s.list.writer == Some(c)
    requires m.BoardUpdate? && WellFormed(m) && m.brought.Some?
    requires text == CString(Handle(s.list, b, c.sfd, m).board)
    ensures Spread(s.list, b, c.sfd, m) == Boards(s.list.clients, s.list.writer, Board(text))
  {
  }

  /** A completely received update of the writer brings its text to every client in the list but the
      writer, who gets nothing. */
  lemma UpdateReachesOthers(s: System, b: seq<Byte>, c: Client, m: Incoming, sfd: int, text: seq<Byte>)
    requires Inv(s) && IsBoard(b) && s.list.writer == Some(c)
    requires m.BoardUpdate? && WellFormed(m) && m.brought.Some? && |m.brought.value| == m.length
    requires text == Fitting(CString(m.brought.value))
    ensures
      var sends := Spread(s.list, b, c.sfd, m);
      && Copies(sends, sfd, Encode(Board(text))) == To(sends, sfd)
      && To(sends, sfd) == (if Listed(s.list, sfd) && sfd != c.sfd then 1 else 0)
    ensures Decode(Encode(Board(text))) == [Board(text)]
  {
    BoardUninterrupted(s.list, b, c.sfd, m);
    UpdateSpreads(s, b, c, m, text);
    BoardLaw(s, s.list.writer, Board(text), sfd);
    BoardArrives(Handle(s.list, b, c.sfd, m).board);
  }
}
