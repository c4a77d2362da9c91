/**
 The client list and the write permission as values: what each list operation of
 src/server/client_list.c and each handler of src/server/message_handler.c does to them.
 The heap code in ClientList and Handlers is proved against these functions.
 */
module Permissions {
  import opened Commons
  import opened Protocol

  datatype Client = Client(cid: Word, sfd: int, role: Byte, name: seq<Byte>)

  /** `docent` and `writer` stand for user_docent and user_write. */
  datatype ListState = ListState(clients: seq<Client>, docent: Option<Client>, writer: Option<Client>)

  /** A call of send(). */
  datatype Send = Send(sfd: int, message: ServerMessage)

  /** What a handler returns, what it sent, the broadcast it triggered, and whether it interrupted
      the server's process group. `Crash` stands for following a NULL pointer. */
  datatype Effect =
    | Effect(ret: int, sends: seq<Send>, trigger: Option<Broadcast>, interrupt: bool := false)
    | Crash

  const QUIET := Effect(0, [], None)
  const KICK := Effect(-1, [], None)

  const REVOKED := Bytes("Your write access was revoked by the docent.")
  const DENIED := Bytes("Request denied by docent")

  /** Ids, and so clients, are pairwise different. */
  predicate DistinctCids(clients: seq<Client>) {
    forall i, j :: 0 <= i < j < |clients| ==> clients[i].cid != clients[j].cid
  }

  /** Index of the first client with the descriptor, or the length of the list. */
  function IndexOfSfd(clients: seq<Client>, sfd: int): (k: nat)
    ensures k <= |clients|
    ensures forall i :: 0 <= i < k ==> clients[i].sfd != sfd
    ensures k < |clients| ==> clients[k].sfd == sfd
  {
    if clients == [] || clients[0].sfd == sfd then 0 else 1 + IndexOfSfd(clients[1..], sfd)
  }

  /** Index of the first client with the id, or the length of the list. */
  function IndexOfCid(clients: seq<Client>, cid: Word): (k: nat)
    ensures k <= |clients|
    ensures forall i :: 0 <= i < k ==> clients[i].cid != cid
    ensures k < |clients| ==> clients[k].cid == cid
  {
    if clients == [] || clients[0].cid == cid then 0 else 1 + IndexOfCid(clients[1..], cid)
  }

  function FindSfd(clients: seq<Client>, sfd: int): Option<Client> {
    var k := IndexOfSfd(clients, sfd);
    if k < |clients| then Some(clients[k]) else None
  }

  function FindCid(clients: seq<Client>, cid: Word): Option<Client> {
    var k := IndexOfCid(clients, cid);
    if k < |clients| then Some(clients[k]) else None
  }

  predicate Listed(s: ListState, sfd: int) {
    exists i :: 0 <= i < |s.clients| && s.clients[i].sfd == sfd
  }

  predicate TutorExists(s: ListState) {
    s.writer.Some? && s.docent != s.writer
  }

  predicate HasWriteAccess(s: ListState, sfd: int) {
    s.writer.Some? && s.writer.value.sfd == sfd
  }

  predicate IsDocent(s: ListState, sfd: int) {
    s.docent.Some? && s.docent.value.sfd == sfd
  }

  function Added(s: ListState, c: Client): ListState {
    var lead := c.role == DOCENT;
    ListState(s.clients + [c], if lead then Some(c) else s.docent, if lead then Some(c) else s.writer)
  }

  /** The first client with the descriptor leaves; its write permission falls back to the docent. */
  function Removed(s: ListState, sfd: int): ListState
    requires Listed(s, sfd)
  {
    var k := IndexOfSfd(s.clients, sfd);
    var gone := Some(s.clients[k]);
    var docent := if s.docent == gone then None else s.docent;
    ListState(s.clients[..k] + s.clients[k + 1..], docent, if s.writer == gone then docent else s.writer)
  }

  /** The role given to a client that asked for `asked`, when docent_exists() answered `docentSeen`. */
  function DecidedRole(asked: Byte, docentSeen: bool): Byte {
    if (asked == INDIFFERENT || asked == DOCENT) && !docentSeen then DOCENT else STUDENT
  }

  /** `delivered` tells whether sending the query to the docent succeeded. */
  function Requested(s: ListState, sfd: int, write: Byte, delivered: bool): (ListState, Effect) {
    if write == (if HasWriteAccess(s, sfd) then 1 else 0) then
      (s, QUIET)
    else if IsDocent(s, sfd) then
      (s.(writer := s.docent),
       if s.writer.None? then Crash
       else Effect(0, [Send(s.writer.value.sfd, Error(E_MESSAGE, REVOKED))], Some(STATUS)))
    else if write == 0 then
      (s.(writer := s.docent), Effect(0, [], Some(STATUS)))
    else if s.docent.None? then
      if TutorExists(s) then (s, QUIET)
      else (s.(writer := FindSfd(s.clients, sfd)), Effect(0, [], Some(STATUS)))
    else
      match FindSfd(s.clients, sfd)
      case None => (s, KICK)
      case Some(user) =>
        (s, Effect(if delivered then 0 else -1, [Send(s.docent.value.sfd, Query(user.cid, user.name))], None))
  }

  function Replied(s: ListState, sfd: int, write: Byte, cid: Word): (ListState, Effect) {
    var user := FindCid(s.clients, cid);
    if !IsDocent(s, sfd) then
      (s, KICK)
    else if write == 0 then
      (s, if user.None? then Crash else Effect(0, [Send(user.value.sfd, Error(E_MESSAGE, DENIED))], None))
    else if user.None? then
      (s, QUIET)
    else
      (s.(writer := user), Effect(0, [], Some(STATUS)))
  }

  /** The next id after `n` ids have been handed out: n + 1, or 0 once 65535 is gone. */
  function NextCid(counter: Word): Word {
    if counter == 0xFFFF then 0 else counter + 1
  }

  function AfterCid(counter: Word): Word {
    if counter == 0xFFFF then 0xFFFF else counter + 1
  }
}
