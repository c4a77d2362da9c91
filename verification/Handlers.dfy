/** The sections of src/server/message_handler.c that hold the client list. */
module Handlers {
  import opened Commons
  import opened Protocol
  import opened Permissions
  import opened ClientLists

  /** The role switch of login_handler. */
  method DecideRole(list: ClientList, asked: Byte) returns (role: Byte)
    ensures role == DecidedRole(asked, list.View().docent.Some?)
  {
    role := asked;
    if role == INDIFFERENT {
      var present := list.DocentExists();
      role := if present != 0 then STUDENT else DOCENT;
    } else if role == STUDENT {
    } else if role == DOCENT {
      var present := list.DocentExists();
      if present != 0 {
        role := STUDENT;
      }
    } else {
      role := STUDENT;
    }
  }

  /** The last branch of request_handler: somebody else than the docent wants to write. */
  method AskForAccess(list: ClientList, sfd: int, docent: Entry?, delivered: bool, ghost write: Byte)
    returns (effect: Effect)
    requires list.Valid() && DistinctCids(list.View().clients) && docent == list.userDocent
    requires !Permissions.IsDocent(list.View(), sfd)
    requires write != 0 && write != if Permissions.HasWriteAccess(list.View(), sfd) then 1 else 0
    modifies list`userWrite
    ensures list.Valid() && list.Entries == old(list.Entries)
    ensures (list.View(), effect) == Requested(old(list.View()), sfd, write, delivered)
  {
    var present := list.DocentExists();
    if present == 0 {
      var tutor := list.TutorExists();
      if tutor != 0 {
        return QUIET;
      }
      var user := list.GetUserSfd(sfd);
      list.SetWriteUser(user);
      return Effect(0, [], Some(STATUS));
    }
    var user := list.GetUserSfd(sfd);
    if user == null {
      return KICK;
    }
    var query := Query(user.cdata.cid, user.cdata.name);
    return Effect(if delivered then 0 else -1, [Send(docent.cdata.sfd, query)], None);
  }

  /** `received` is the byte that recv() brings, None if it failed or the connection is closed. */
  method RequestHandler(list: ClientList, sfd: int, received: Option<Byte>, delivered: bool) returns (effect: Effect)
    requires list.Valid() && DistinctCids(list.View().clients)
    modifies list`userWrite
    ensures list.Valid() && list.Entries == old(list.Entries)
    ensures (list.View(), effect) ==
      if received.None? then (old(list.View()), KICK)
      else Requested(old(list.View()), sfd, received.value, delivered)
  {
    if received.None? {
      return KICK;
    }
    var write := received.value;
    var access := list.HasWriteAccess(sfd);
    if write == access {
      return QUIET;
    }
    var docent := list.userDocent;
    var leads := list.IsDocent(sfd);
    if leads != 0 {
      var user := list.userWrite;
      list.SetWriteUser(docent);
      if user == null {
        return Crash;
      }
      return Effect(0, [Send(user.cdata.sfd, Error(E_MESSAGE, REVOKED))], Some(STATUS));
    } else if write == 0 {
      list.SetWriteUser(docent);
      return Effect(0, [], Some(STATUS));
    } else {
      effect := AskForAccess(list, sfd, docent, delivered, write);
    }
  }

  /** `received` holds the two fields that recv() brings. */
  method ReplyHandler(list: ClientList, sfd: int, received: Option<(Byte, Word)>) returns (effect: Effect)
    requires list.Valid() && DistinctCids(list.View().clients)
    modifies list`userWrite
    ensures list.Valid() && list.Entries == old(list.Entries)
    ensures (list.View(), effect) ==
      if received.None? then (old(list.View()), KICK)
      else Replied(old(list.View()), sfd, received.value.0, received.value.1)
  {
    if received.None? {
      return KICK;
    }
    var (write, cid) := received.value;
    var leads := list.IsDocent(sfd);
    if leads == 0 {
      return KICK;
    }
    var user := list.GetUserCid(cid);
    if write == 0 {
      if user == null {
        return Crash;
      }
      return Effect(0, [Send(user.cdata.sfd, Error(E_MESSAGE, DENIED))], None);
    }
    if user == null {
      return QUIET;
    }
    list.SetWriteUser(user);
    return Effect(0, [], Some(STATUS));
  }
}
