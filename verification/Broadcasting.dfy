/** src/server/broadcasting.c: the two broadcasts over the client list. */
module Broadcasting {
  import opened Commons
  import opened Protocol
  import opened Permissions
  import opened ClientLists
  import opened Blackboards
  import opened Runs
  import opened Wire
  import RunSafety

  // ---------- what should be sent ----------

  /** How many clients there are of a kind. */
  function Count(clients: seq<Client>, kind: Client -> bool): (n: nat)
    ensures n <= |clients|
  {
    if clients == [] then 0
    else Count(clients[..|clients| - 1], kind) + if kind(clients[|clients| - 1]) then 1 else 0
  }

  function IsLeader(): Client -> bool { (c: Client) => c.role == DOCENT }

  /** A tutor is a client other than a docent that may write. */
  function IsTutor(l: ListState): Client -> bool { (c: Client) => c.role != DOCENT && l.writer == Some(c) }

  function IsStudent(l: ListState): Client -> bool { (c: Client) => c.role != DOCENT && l.writer != Some(c) }

  /** One status to every client, in list order, with write = 1 for the writer alone. */
  function Statuses(l: ListState, dcount: Byte, tcount: Byte, scount: Word): seq<Send> {
    seq(|l.clients|, i requires 0 <= i < |l.clients| =>
      var c := l.clients[i];
      Send(c.sfd, Status(c.role, c.cid, if l.writer == Some(c) then 1 else 0, dcount, tcount, scount)))
  }

  /** Who gets a board, in list order. */
  function Audience(clients: seq<Client>, excluded: Option<Client>): seq<Client> {
    if clients == [] then []
    else
      var last := clients[|clients| - 1];
      Audience(clients[..|clients| - 1], excluded) + if excluded == Some(last) then [] else [last]
  }

  function ToEach(clients: seq<Client>, message: ServerMessage): seq<Send> {
    seq(|clients|, i requires 0 <= i < |clients| => Send(clients[i].sfd, message))
  }

  // ---------- the counts ----------

  lemma {:induction false} KindsAddUp(l: ListState, clients: seq<Client>)
    ensures Count(clients, IsLeader()) + Count(clients, IsTutor(l)) + Count(clients, IsStudent(l)) == |clients|
  {
    if clients != [] {
      KindsAddUp(l, clients[..|clients| - 1]);
    }
  }

  /** A kind that only one listed client is of is counted once, one nobody is of never. */
  lemma {:induction false} CountOne(clients: seq<Client>, kind: Client -> bool, only: Option<Client>)
    requires DistinctCids(clients)
    requires forall c <- clients :: kind(c) <==> Some(c) == only
    ensures Count(clients, kind) == if only.Some? && only.value in clients then 1 else 0
  {
    if clients != [] {
      var n := |clients|;
      var rest, last := clients[..n - 1], clients[n - 1];
      assert forall c <- rest :: c in clients;
      CountOne(rest, kind, only);
      assert clients == rest + [last];
      assert last !in rest;
    }
  }

  lemma {:induction false} CountSome(clients: seq<Client>, kind: Client -> bool, i: nat)
    requires i < |clients| && kind(clients[i])
    ensures Count(clients, kind) >= 1
  {
    if i < |clients| - 1 { CountSome(clients[..|clients| - 1], kind, i); }
  }

  lemma {:induction false} CountTwo(clients: seq<Client>, kind: Client -> bool, i: nat, j: nat)
    requires i < j < |clients| && kind(clients[i]) && kind(clients[j])
    ensures Count(clients, kind) >= 2
  {
    var n := |clients| - 1;
    if j < n { CountTwo(clients[..n], kind, i, j); } else { CountSome(clients[..n], kind, i); }
  }

  /** A docent besides the one that is pointed to is not counted. */
  lemma SecondDocent(clients: seq<Client>, docent: Option<Client>, i: nat)
    requires i < |clients| && clients[i].role == DOCENT && docent != Some(clients[i])
    requires docent.Some? ==> docent.value in clients && docent.value.role == DOCENT
    ensures Count(clients, IsLeader()) > if docent.Some? then 1 else 0
  {
    CountSome(clients, IsLeader(), i);
    if docent.Some? {
      var j :| 0 <= j < |clients| && clients[j] == docent.value;
      if i < j { CountTwo(clients, IsLeader(), i, j); } else { CountTwo(clients, IsLeader(), j, i); }
    }
  }

  /** The docent count of the status is the true one exactly if there is at most one docent. */
  lemma DocentCountIff(s: System)
    requires Inv(s)
    ensures (if s.list.docent.Some? then 1 else 0) == Count(s.list.clients, IsLeader()) <==> OneDocent(s.list)
  {
    var clients := s.list.clients;
    if OneDocent(s.list) {
      CountOne(clients, IsLeader(), s.list.docent);
    } else {
      var i :| 0 <= i < |clients| && clients[i].role == DOCENT && s.list.docent != Some(clients[i]);
      SecondDocent(clients, s.list.docent, i);
    }
  }

  /** What the broadcast computes from two pointers and a counter are the true numbers of
      docents, tutors and other students: they add up to the list, nothing is cut off. */
  lemma CountsAreTrue(s: System)
    requires Inv(s) && OneDocent(s.list)
    ensures
      var l, n := s.list, |s.list.clients|;
      var d, t := if l.docent.Some? then 1 else 0, if TutorExists(l) then 1 else 0;
      && d == Count(l.clients, IsLeader())
      && t == Count(l.clients, IsTutor(l))
      && n - d - t == Count(l.clients, IsStudent(l))
      && 0 <= n - d - t <= 0xFFFF
  {
    var l := s.list;
    CountOne(l.clients, IsLeader(), l.docent);
    CountOne(l.clients, IsTutor(l), if TutorExists(l) then l.writer else None);
    KindsAddUp(l, l.clients);
    RunSafety.ListFits(s);
  }

  // ---------- the loops ----------

  /** Bytes handed to send(). */
  datatype Packet = Packet(sfd: int, bytes: seq<Byte>)

  function Packed(sends: seq<Send>): (r: seq<Packet>)
    ensures |r| == |sends|
  {
    seq(|sends|, i requires 0 <= i < |sends| => Packet(sends[i].sfd, Encode(sends[i].message)))
  }

  function StatusPackets(l: ListState): seq<Packet> {
    var d, t := if l.docent.Some? then 1 else 0, if TutorExists(l) then 1 else 0;
    Packed(Statuses(l, d, t, (|l.clients| - d - t) % 0x1_0000))
  }

  method BroadcastStatus(list: ClientList) returns (sends: seq<Packet>)
    requires list.Valid() && DistinctCids(list.View().clients)
    modifies list`position
    ensures list.position == null
    ensures sends == StatusPackets(list.View())
  {
    var dcount := list.DocentExists();
    var tcount := list.TutorExists();
    var n := list.GetClientCount();
    sends := SendStatuses(list, dcount, tcount, (n - dcount - tcount) % 0x1_0000);
  }

  /** The status loop. */
  method SendStatuses(list: ClientList, dcount: Byte, tcount: Byte, scount: Word) returns (sends: seq<Packet>)
    requires list.Valid() && DistinctCids(list.View().clients)
    modifies list`position
    ensures list.position == null
    ensures sends == Packed(Statuses(list.View(), dcount, tcount, scount))
  {
    ghost var l, k := list.View(), 0;
    WriterEntries(list);
    sends := [];
    var current := list.StartIteration();
    while current != null
      invariant k <= |list.Entries|
      invariant current == list.position == if k < |list.Entries| then list.Entries[k] else null
      invariant sends == FirstStatuses(l, dcount, tcount, scount, k)
      decreases |list.Entries| - k
    {
      var packet := StatusFor(current, current == list.userWrite, l, k, dcount, tcount, scount);
      NextStatus(l, dcount, tcount, scount, k);
      sends := sends + [packet];
      current := list.IterationNext(k);
      k := k + 1;
    }
    list.EndIteration();
  }

  function FirstStatuses(l: ListState, dcount: Byte, tcount: Byte, scount: Word, k: nat): (r: seq<Packet>)
    requires k <= |l.clients|
    ensures k == |l.clients| ==> r == Packed(Statuses(l, dcount, tcount, scount))
  {
    Packed(Statuses(l, dcount, tcount, scount))[..k]
  }

  lemma NextStatus(l: ListState, dcount: Byte, tcount: Byte, scount: Word, k: nat)
    requires k < |l.clients|
    ensures FirstStatuses(l, dcount, tcount, scount, k + 1)
         == FirstStatuses(l, dcount, tcount, scount, k) + [Packed(Statuses(l, dcount, tcount, scount))[k]]
  {
  }

  /** The body of the status loop. */
  method StatusFor(current: Entry, writes: bool, ghost l: ListState, ghost k: nat,
                   dcount: Byte, tcount: Byte, scount: Word) returns (packet: Packet)
    requires k < |l.clients| && current.cdata == l.clients[k] && (writes <==> l.writer == Some(l.clients[k]))
    ensures packet == Packed(Statuses(l, dcount, tcount, scount))[k]
  {
    var permission: Byte := 0;
    if writes {
      permission := 1;
    }
    var status := BuildStatus(current.cdata.role, current.cdata.cid, permission, dcount, tcount, scount);
    packet := Packet(current.cdata.sfd, status[..]);
  }

  lemma WriterEntries(list: ClientList)
    requires list.Valid() && DistinctCids(list.View().clients)
    ensures forall k :: 0 <= k < |list.Entries| ==>
      (list.Entries[k] == list.userWrite <==> list.View().writer == Some(list.View().clients[k]))
  {
    forall k | 0 <= k < |list.Entries|
      ensures list.Entries[k] == list.userWrite <==> list.View().writer == Some(list.View().clients[k])
    {
      PointersAreClients(list.Entries, k, list.userWrite);
    }
  }

  function Boards(clients: seq<Client>, excluded: Option<Client>, message: ServerMessage): seq<Packet> {
    Packed(ToEach(Audience(clients, excluded), message))
  }

  lemma BoardsAppend(clients: seq<Client>, k: nat, excluded: Option<Client>, message: ServerMessage)
    requires k < |clients|
    ensures Boards(clients[..k + 1], excluded, message) == Boards(clients[..k], excluded, message)
      + if excluded == Some(clients[k]) then [] else [Packet(clients[k].sfd, Encode(message))]
  {
    assert clients[..k + 1][..k] == clients[..k];
  }

  /** Sends the board to everybody, or to everybody but the writer. */
  method BroadcastBlackboard(list: ClientList, blackboard: array<Byte>, exclW: bool) returns (sends: seq<Packet>)
    requires list.Valid() && DistinctCids(list.View().clients) && IsBoard(blackboard[..])
    modifies list`position
    ensures list.position == null
    ensures
      var l := list.View();
      sends == Boards(l.clients, if exclW then l.writer else None, Board(CString(blackboard[..])))
  {
    var length := StrLen(blackboard);
    var board := BuildBoard(blackboard, length);
    sends := SendBoards(list, board[..3 + length], exclW, Board(CString(blackboard[..])));
  }

  /** The board loop. */
  method SendBoards(list: ClientList, bytes: seq<Byte>, exclW: bool, ghost message: ServerMessage)
    returns (sends: seq<Packet>)
    requires list.Valid() && DistinctCids(list.View().clients) && bytes == Encode(message)
    modifies list`position
    ensures list.position == null
    ensures
      var l := list.View();
      sends == Boards(l.clients, if exclW then l.writer else None, message)
  {
    ghost var clients := list.View().clients;
    ghost var excluded := if exclW then list.View().writer else None;
    ghost var k := 0;
    var current := list.StartIteration();
    sends := [];
    while current != null
      invariant k <= |list.Entries|
      invariant current == list.position == if k < |list.Entries| then list.Entries[k] else null
      invariant sends == Boards(clients[..k], excluded, message)
      decreases |list.Entries| - k
    {
      BoardsAppend(clients, k, excluded, message);
      PointersAreClients(list.Entries, k, list.userWrite);
      if !(current == list.userWrite && exclW) {
        sends := sends + [Packet(current.cdata.sfd, bytes)];
      }
      current := list.IterationNext(k);
      k := k + 1;
    }
    assert clients[..k] == clients;
    list.EndIteration();
  }

  /** What the agent sends for a trigger. */
  function BroadcastOf(kind: Broadcast, l: ListState, board: seq<Byte>): seq<Packet> {
    match kind
    case STATUS => StatusPackets(l)
    case BLACKBOARD => Boards(l.clients, l.writer, Board(CString(board)))
    case CLEAR => Boards(l.clients, None, Board(CString(board)))
  }

  /** One turn of broadcasting_agent, after it was woken. */
  method AgentTurn(list: ClientList, blackboard: array<Byte>, broadcastType: Broadcast) returns (sends: seq<Packet>)
    requires list.Valid() && DistinctCids(list.View().clients) && IsBoard(blackboard[..])
    modifies list`position
    ensures list.position == null
    ensures sends == BroadcastOf(broadcastType, list.View(), blackboard[..])
  {
    match broadcastType {
      case STATUS => sends := BroadcastStatus(list);
      case BLACKBOARD => sends := BroadcastBlackboard(list, blackboard, true);
      case CLEAR => sends := BroadcastBlackboard(list, blackboard, false);
    }
  }

  // ---------- exactly once, in order ----------

  function Copies(sends: seq<Packet>, sfd: int, bytes: seq<Byte>): nat {
    if sends == [] then 0
    else Copies(sends[..|sends| - 1], sfd, bytes) + if sends[|sends| - 1] == Packet(sfd, bytes) then 1 else 0
  }

  ghost predicate Hears(clients: seq<Client>, excluded: Option<Client>, sfd: int) {
    exists i :: 0 <= i < |clients| && clients[i].sfd == sfd && excluded != Some(clients[i])
  }

  /** A broadcast board goes once to every client that is not excluded and to nobody else. */
  lemma {:induction false} BoardOnce(clients: seq<Client>, excluded: Option<Client>, message: ServerMessage, sfd: int)
    requires DistinctSfds(clients)
    ensures Copies(Boards(clients, excluded, message), sfd, Encode(message))
         == if Hears(clients, excluded, sfd) then 1 else 0
  {
    if clients != [] {
      var n := |clients| - 1;
      BoardOnce(clients[..n], excluded, message, sfd);
      BoardsAppend(clients, n, excluded, message);
      assert clients[..n + 1] == clients;
      HearsAppend(clients, excluded, sfd);
      var before, all := Boards(clients[..n], excluded, message), Boards(clients, excluded, message);
      if excluded != Some(clients[n]) {
        assert all[..|all| - 1] == before;
      } else {
        assert all == before;
      }
    }
  }

  lemma HearsAppend(clients: seq<Client>, excluded: Option<Client>, sfd: int)
    requires DistinctSfds(clients) && clients != []
    ensures var n := |clients| - 1;
      && (Hears(clients, excluded, sfd) <==>
            Hears(clients[..n], excluded, sfd) || (clients[n].sfd == sfd && excluded != Some(clients[n])))
      && !(Hears(clients[..n], excluded, sfd) && clients[n].sfd == sfd)
  {
    var n := |clients| - 1;
    if Hears(clients[..n], excluded, sfd) {
      var i :| 0 <= i < n && clients[..n][i].sfd == sfd && excluded != Some(clients[..n][i]);
      assert clients[i].sfd == sfd && excluded != Some(clients[i]);
    }
    if Hears(clients, excluded, sfd) {
      var i :| 0 <= i < |clients| && clients[i].sfd == sfd && excluded != Some(clients[i]);
      if i < n { assert clients[..n][i].sfd == sfd; }
    }
  }

  /** The audience keeps the order of the list. */
  lemma {:induction false} InListOrder(clients: seq<Client>, excluded: Option<Client>, i: nat, j: nat)
    returns (p: nat, q: nat)
    requires i < j < |Audience(clients, excluded)|
    ensures p < q < |clients|
    ensures clients[p] == Audience(clients, excluded)[i] && clients[q] == Audience(clients, excluded)[j]
  {
    var n := |clients| - 1;
    var before := Audience(clients[..n], excluded);
    if j < |before| {
      p, q := InListOrder(clients[..n], excluded, i, j);
    } else {
      p := FromTheList(clients[..n], excluded, i);
      q := n;
    }
  }

  lemma {:induction false} FromTheList(clients: seq<Client>, excluded: Option<Client>, i: nat) returns (p: nat)
    requires i < |Audience(clients, excluded)|
    ensures p < |clients| && clients[p] == Audience(clients, excluded)[i]
  {
    var n := |clients| - 1;
    if i < |Audience(clients[..n], excluded)| {
      p := FromTheList(clients[..n], excluded, i);
    } else {
      p := n;
    }
  }

  /** The board a client is sent reads there as the whole text of the board. */
  lemma BoardArrives(board: seq<Byte>)
    requires IsBoard(board)
    ensures |CString(board)| < BLACKBOARD_BYTESIZE
    ensures Decode(Encode(Board(CString(board)))) == [Board(CString(board))]
  {
    BoardTextFits(board);
    OneMessage(Board(CString(board)));
  }
}
