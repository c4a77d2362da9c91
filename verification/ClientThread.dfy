/**
 One client thread from login to logout (src/server/client_thread.c and login_handler,
 board_handler, shutdown_handler of src/server/message_handler.c), run without interruption.
 ServedIsARun ties it to the step machine of Runs, where the threads interleave.
 */
module ClientThread {
  import opened Commons
  import opened Protocol
  import opened Permissions
  import opened ClientLists
  import opened Blackboards
  import opened Wire
  import Handlers
  import Runs

  const TOO_MANY := Bytes("There are too many clients. Sorry!")

  // ---------- login ----------

  /** login_handler on the bytes a client sends first; `junk` and `more` are what malloc() left in
      its two buffers. A client that is turned away for lack of ids gets its error on descriptor 0,
      because its record is not filled in yet. */
  method LoginHandler(list: ClientList, blackboard: array<Byte>, sfd: int, stream: seq<Byte>,
                      junk: nat -> Byte, more: nat -> Byte)
    returns (effect: Effect)
    requires list.Valid() && IsBoard(blackboard[..])
    modifies list, list.Entries
    ensures list.Valid()
    ensures
      var before, counter := old(list.View()), old(list.cidCounter);
      match ParseLogin(stream, junk, more)
      case Refused(ret) =>
        list.View() == before && list.cidCounter == counter && effect == Effect(ret, [], None)
      case Accepted(asked, name) =>
        var cid := NextCid(counter);
        list.cidCounter == AfterCid(counter) &&
        if cid == 0 then
          list.View() == before && effect == Effect(-1, [Send(0, Error(E_LOGIN, TOO_MANY))], None)
        else
          && list.View() == Added(before, Client(cid, sfd, DecidedRole(asked, before.docent.Some?), name))
          && effect == Effect(0, [Send(sfd, Board(CString(blackboard[..])))], Some(STATUS))
  {
    var login := ReceiveLogin(stream, junk, more);
    if login.Refused? {
      return Effect(login.ret, [], None);
    }
    var cid := list.GetNextCid();
    if cid == 0 {
      return Effect(-1, [Send(0, Error(E_LOGIN, TOO_MANY))], None);
    }
    var role := Handlers.DecideRole(list, login.role);
    list.AddClient(Client(cid, sfd, role, login.name));
    var length := StrLen(blackboard);
    return Effect(0, [Send(sfd, Board(blackboard[..length]))], Some(STATUS));
  }

  // ---------- the message loop ----------

  /** What a thread receives; a failed receive inside a handler is None. For requests and replies a
      closed connection is a failure as well. For an update it is not: `brought` then has fewer bytes
      than announced, and the handler goes on with what malloc() left in its buffer, the `heap`. */
  datatype Incoming =
    | BoardUpdate(length: Word, brought: Option<seq<Byte>>, heap: seq<Byte>)
    | Clear(length: Word)
    | WriteRequest(write: Option<Byte>, delivered: bool)
    | WriteReply(reply: Option<(Byte, Word)>)
    | Shutdown
    | Unknown

  predicate WellFormed(m: Incoming) {
    m.BoardUpdate? ==> |m.heap| == m.length && (m.brought.Some? ==> |m.brought.value| <= m.length)
  }

  /** The receive buffer after recv(). */
  function Buffer(brought: Option<seq<Byte>>, heap: seq<Byte>): Option<seq<Byte>> {
    if brought.None? then None
    else Some(brought.value + if |brought.value| < |heap| then heap[|brought.value|..] else [])
  }

  datatype Outcome = Outcome(list: ListState, board: seq<Byte>, effect: Effect)

  /** board_handler: only the writer's updates and clears reach the board, and are broadcast. */
  function BoardHandled(
    l: ListState, b: seq<Byte>, sfd: int, length: Word, received: Option<seq<Byte>>, clear: bool): Outcome
  {
    if !HasWriteAccess(l, sfd) then Outcome(l, b, QUIET)
    else
      var b' := if received.Some? then Stored(received.value) else BLANK;
      Outcome(l, b', if length > 0 && received.None? then KICK
                     else Effect(0, [], Some(if clear then CLEAR else BLACKBOARD)))
  }

  function Handle(l: ListState, b: seq<Byte>, sfd: int, m: Incoming): Outcome {
    match m
    case BoardUpdate(length, brought, heap) => BoardHandled(l, b, sfd, length, Buffer(brought, heap), false)
    case Clear(length) =>
      if length == 0 then BoardHandled(l, b, sfd, 0, None, true) else Outcome(l, b, KICK)
    case WriteRequest(None, delivered) => Outcome(l, b, KICK)
    case WriteRequest(Some(write), delivered) =>
      var (l', effect) := Requested(l, sfd, write, delivered);
      Outcome(l', b, effect)
    case WriteReply(None) => Outcome(l, b, KICK)
    case WriteReply(Some((write, cid))) =>
      var (l', effect) := Replied(l, sfd, write, cid);
      Outcome(l', b, effect)
    case Shutdown =>
      Outcome(l, b, if IsDocent(l, sfd) then Effect(0, [], None, interrupt := true) else KICK)
    case Unknown => Outcome(l, b, KICK)
  }

  method BoardHandler(list: ClientList, blackboard: array<Byte>, sfd: int, length: Word,
                      received: Option<seq<Byte>>, clear: bool)
    returns (effect: Effect)
    requires blackboard.Length == BLACKBOARD_BYTESIZE
    requires received.Some? ==> |received.value| == length
    modifies blackboard
    ensures
      var o := BoardHandled(list.View(), old(blackboard[..]), sfd, length, received, clear);
      blackboard[..] == o.board && effect == o.effect
  {
    var access := list.HasWriteAccess(sfd);
    if access < 1 {
      return QUIET;
    }
    var ret := WriteBoard(blackboard, length, received);
    if ret < 0 {
      return KICK;
    }
    effect := Effect(0, [], Some(if clear then CLEAR else BLACKBOARD));
  }

  method ShutdownHandler(list: ClientList, sfd: int) returns (effect: Effect)
    ensures effect == if IsDocent(list.View(), sfd) then Effect(0, [], None, interrupt := true) else KICK
  {
    var leads := list.IsDocent(sfd);
    if leads == 0 {
      return KICK;
    }
    effect := Effect(0, [], None, interrupt := true);
  }

  /** The switch of client_handler. */
  method Dispatch(list: ClientList, blackboard: array<Byte>, sfd: int, m: Incoming) returns (effect: Effect)
    requires list.Valid() && DistinctCids(list.View().clients)
    requires blackboard.Length == BLACKBOARD_BYTESIZE && WellFormed(m)
    modifies list`userWrite, blackboard
    ensures list.Valid() && list.View().clients == old(list.View().clients) && list.Entries == old(list.Entries)
    ensures Outcome(list.View(), blackboard[..], effect) == Handle(old(list.View()), old(blackboard[..]), sfd, m)
  {
    match m {
      case BoardUpdate(length, brought, heap) =>
        effect := BoardHandler(list, blackboard, sfd, length, Buffer(brought, heap), false);
      case Clear(length) =>
        effect := KICK;
        if length == 0 {
          effect := BoardHandler(list, blackboard, sfd, 0, None, true);
        }
      case WriteRequest(write, delivered) =>
        effect := Handlers.RequestHandler(list, sfd, write, delivered);
      case WriteReply(reply) =>
        effect := Handlers.ReplyHandler(list, sfd, reply);
      case Shutdown =>
        effect := ShutdownHandler(list, sfd);
      case Unknown =>
        effect := KICK;
    }
  }

  /** What a thread leaves: the list, the board, and everything it did, in order. */
  datatype Life = Life(list: ListState, board: seq<Byte>, effects: seq<Effect>)

  /** The messages of one thread after its login, then its removal; `Crash` ends the server.
      `done` is what the thread did before. */
  function Served(l: ListState, b: seq<Byte>, sfd: int, inbox: seq<Incoming>, done: seq<Effect>): Life
    decreases |inbox|
  {
    if inbox == [] then Gone(l, b, sfd, done)
    else
      var o := Handle(l, b, sfd, inbox[0]);
      var effects := done + [o.effect];
      if o.effect.Crash? then Life(o.list, o.board, effects)
      else if o.effect.ret < 0 then Gone(o.list, o.board, sfd, effects)
      else Served(o.list, o.board, sfd, inbox[1..], effects)
  }

  /** The removal triggers a status. */
  function Gone(l: ListState, b: seq<Byte>, sfd: int, done: seq<Effect>): Life {
    if Listed(l, sfd) then Life(Removed(l, sfd), b, done + [Effect(0, [], Some(STATUS))])
    else Life(l, b, done + [Crash])
  }

  predicate Crashes(life: Life) { Crash in life.effects }

  lemma ServedTurn(l: ListState, b: seq<Byte>, sfd: int, inbox: seq<Incoming>, i: nat, done: seq<Effect>, o: Outcome)
    requires i < |inbox| && o == Handle(l, b, sfd, inbox[i])
    ensures Served(l, b, sfd, inbox[i..], done) ==
      if o.effect.Crash? then Life(o.list, o.board, done + [o.effect])
      else if o.effect.ret < 0 then Gone(o.list, o.board, sfd, done + [o.effect])
      else Served(o.list, o.board, sfd, inbox[i + 1..], done + [o.effect])
  {
    assert inbox[i..][1..] == inbox[i + 1..];
  }

  /** client_handler after a successful login. */
  method ClientHandler(list: ClientList, blackboard: array<Byte>, sfd: int, inbox: seq<Incoming>)
    returns (effects: seq<Effect>)
    requires list.Valid() && DistinctCids(list.View().clients) && Listed(list.View(), sfd)
    requires blackboard.Length == BLACKBOARD_BYTESIZE && forall m <- inbox :: WellFormed(m)
    modifies list, list.Entries, blackboard
    ensures list.Valid()
    ensures Life(list.View(), blackboard[..], effects) == Served(old(list.View()), old(blackboard[..]), sfd, inbox, [])
  {
    ghost var life := Served(list.View(), blackboard[..], sfd, inbox, []);
    var crashed;
    effects, crashed := ServeAll(list, blackboard, sfd, inbox, life);
    if !crashed {
      effects := Removal(list, blackboard, sfd, effects);
    }
  }

  /** The end of client_handler. */
  method Removal(list: ClientList, blackboard: array<Byte>, sfd: int, done: seq<Effect>) returns (effects: seq<Effect>)
    requires list.Valid() && DistinctCids(list.View().clients) && Listed(list.View(), sfd)
    modifies list, list.Entries
    ensures list.Valid()
    ensures Life(list.View(), blackboard[..], effects) == Gone(old(list.View()), blackboard[..], sfd, done)
  {
    var ret, k := list.RemoveClient(sfd);
    return done + [Effect(0, [], Some(STATUS))];
  }

  /** The loop of client_handler, up to the removal. */
  method ServeAll(list: ClientList, blackboard: array<Byte>, sfd: int, inbox: seq<Incoming>, ghost life: Life)
    returns (effects: seq<Effect>, crashed: bool)
    requires list.Valid() && DistinctCids(list.View().clients)
    requires blackboard.Length == BLACKBOARD_BYTESIZE && forall m <- inbox :: WellFormed(m)
    requires life == Served(list.View(), blackboard[..], sfd, inbox, [])
    modifies list`userWrite, blackboard
    ensures list.Valid() && list.View().clients == old(list.View().clients) && list.Entries == old(list.Entries)
    ensures life == if crashed then Life(list.View(), blackboard[..], effects)
                    else Gone(list.View(), blackboard[..], sfd, effects)
  {
    var i := 0;
    effects := [];
    assert inbox[0..] == inbox;
    while i < |inbox|
      invariant i <= |inbox| && list.Valid() && list.Entries == old(list.Entries)
      invariant life == Served(list.View(), blackboard[..], sfd, inbox[i..], effects)
    {
      ghost var l, b, done := list.View(), blackboard[..], effects;
      var effect := Dispatch(list, blackboard, sfd, inbox[i]);
      ServedTurn(l, b, sfd, inbox, i, done, Outcome(list.View(), blackboard[..], effect));
      effects := effects + [effect];
      if effect.Crash? {
        return effects, true;
      }
      if effect.ret < 0 {
        return effects, false;
      }
      i := i + 1;
    }
    return effects, false;
  }

  // ---------- the loop as steps of the machine ----------

  /** Events that lead from one state to another. */
  ghost predicate Leads(s: Runs.System, events: seq<Runs.Event>, t: Runs.System)
    decreases |events|
  {
    if events == [] then s == t
    else Runs.Enabled(s, events[0]) && Leads(Runs.Next(s, events[0]), events[1..], t)
  }

  /** A login whose three steps nobody interrupts does what LoginHandler does. */
  lemma LoginIsARun(s: Runs.System, sfd: int, asked: Byte, name: seq<Byte>) returns (t: Runs.System)
    requires !s.crashed && sfd !in s.threads && NextCid(s.counter) != 0
    ensures Leads(s, [Runs.Connect(sfd, asked, name), Runs.Decide(sfd), Runs.Enter(sfd)], t)
    ensures t.list == Added(s.list, Client(NextCid(s.counter), sfd, DecidedRole(asked, s.list.docent.Some?), name))
    ensures t.counter == AfterCid(s.counter) && Runs.At(t, sfd, Runs.Serving)
  {
    var connect, decide, enter := Runs.Connect(sfd, asked, name), Runs.Decide(sfd), Runs.Enter(sfd);
    var s1 := Runs.Next(s, connect);
    var s2 := Runs.Next(s1, decide);
    t := Runs.Next(s2, enter);
    assert [connect, decide, enter][1..] == [decide, enter];
    assert [decide, enter][1..] == [enter];
    assert [enter][1..] == [];
    assert Leads(s2, [enter], t);
    assert Leads(s1, [decide, enter], t);
  }

  /** After an uninterrupted login of somebody willing to lead there is a docent: the newcomer, who
      then also writes, if there was none. Nobody else's right changes. */
  lemma WillingClientsLead(s: Runs.System, sfd: int, asked: Byte, name: seq<Byte>)
    returns (t: Runs.System, c: Client)
    requires !s.crashed && sfd !in s.threads && NextCid(s.counter) != 0
    ensures Leads(s, [Runs.Connect(sfd, asked, name), Runs.Decide(sfd), Runs.Enter(sfd)], t)
    ensures t.list.clients == s.list.clients + [c] && c.sfd == sfd && c.name == name
    ensures
      if asked in {INDIFFERENT, DOCENT} && s.list.docent.None? then
        c.role == DOCENT && t.list.docent == t.list.writer == Some(c)
      else
        c.role == STUDENT && t.list.docent == s.list.docent && t.list.writer == s.list.writer
  {
    t := LoginIsARun(s, sfd, asked, name);
    c := t.list.clients[|s.list.clients|];
  }

  /** A thread that has left its loop is removed, with its descriptor in the list. */
  lemma LeavingIsGone(s: Runs.System, b: seq<Byte>, sfd: int, effects: seq<Effect>)
    requires Runs.Inv(s) && !s.crashed && Runs.At(s, sfd, Runs.Leaving)
    ensures
      var t := Runs.Next(s, Runs.Leave(sfd));
      && Leads(s, [Runs.Leave(sfd)], t) && !t.crashed && sfd !in t.threads
      && Gone(s.list, b, sfd, effects) == Life(t.list, b, effects + [Effect(0, [], Some(STATUS))])
  {
    var t := Runs.Next(s, Runs.Leave(sfd));
    LeadsOne(s, Runs.Leave(sfd));
  }

  lemma LeadsOne(s: Runs.System, e: Runs.Event)
    requires Runs.Enabled(s, e)
    ensures Leads(s, [e], Runs.Next(s, e))
  {
    assert [e][1..] == [];
    assert Leads(Runs.Next(s, e), [], Runs.Next(s, e));
  }

  lemma {:induction false} LeadsAppend(
    s: Runs.System, events: seq<Runs.Event>, t: Runs.System, more: seq<Runs.Event>, u: Runs.System)
    requires Leads(s, events, t) && Leads(t, more, u)
    ensures Leads(s, events + more, u)
    decreases |events|
  {
    if events == [] {
      assert events + more == more;
    } else {
      LeadsAppend(Runs.Next(s, events[0]), events[1..], t, more, u);
      assert (events + more)[1..] == events[1..] + more;
    }
  }

  lemma LeadsInvStep(s: Runs.System, events: seq<Runs.Event>, t: Runs.System, e: Runs.Event)
    requires Leads(s, events, t) && Runs.Inv(t) && Runs.Enabled(t, e)
    ensures Leads(s, events + [e], Runs.Next(t, e)) && Runs.Inv(Runs.Next(t, e))
  {
    LeadsOne(t, e);
    LeadsAppend(s, events, t, [e], Runs.Next(t, e));
    Runs.InvStep(t, e);
  }

  predicate AllBy(events: seq<Runs.Event>, sfd: int) {
    forall e <- events :: e.sfd == sfd
  }

  /** board_handler is a look, or two, or two and the rest of it. */
  lemma BoardIsARun(s: Runs.System, sfd: int, clear: bool, failed: bool)
    returns (events: seq<Runs.Event>, t: Runs.System)
    requires Runs.Inv(s) && !s.crashed && Runs.At(s, sfd, Runs.Serving) && (failed ==> !clear)
    ensures Leads(s, events, t) && AllBy(events, sfd) && Runs.Inv(t)
    ensures t.list == s.list && !t.crashed
    ensures Runs.At(t, sfd, if failed && HasWriteAccess(s.list, sfd) then Runs.Leaving else Runs.Serving)
  {
    LeadsOne(s, Runs.FirstLook(sfd, clear));
    Runs.InvStep(s, Runs.FirstLook(sfd, clear));
    events, t := [Runs.FirstLook(sfd, clear)], Runs.Next(s, Runs.FirstLook(sfd, clear));
    if s.list.writer.Some? {
      LeadsInvStep(s, events, t, Runs.SecondLook(sfd));
      events, t := events + [Runs.SecondLook(sfd)], Runs.Next(t, Runs.SecondLook(sfd));
      if HasWriteAccess(s.list, sfd) {
        LeadsInvStep(s, events, t, Runs.Finish(sfd, failed));
        events, t := events + [Runs.Finish(sfd, failed)], Runs.Next(t, Runs.Finish(sfd, failed));
      }
    }
  }

  /** One message is a run of its thread's own steps. */
  lemma HandleIsARun(s: Runs.System, b: seq<Byte>, sfd: int, m: Incoming)
    returns (events: seq<Runs.Event>, t: Runs.System)
    requires Runs.Inv(s) && !s.crashed && Runs.At(s, sfd, Runs.Serving)
    ensures Leads(s, events, t) && AllBy(events, sfd) && Runs.Inv(t)
    ensures
      var o := Handle(s.list, b, sfd, m);
      && t.list == o.list && (t.crashed <==> o.effect.Crash?)
      && (!t.crashed ==> Runs.At(t, sfd, if o.effect.ret < 0 then Runs.Leaving else Runs.Serving))
  {
    var o := Handle(s.list, b, sfd, m);
    if m.BoardUpdate? {
      events, t := BoardIsARun(s, sfd, false, m.length > 0 && m.brought.None?);
    } else if m == Clear(0) {
      events, t := BoardIsARun(s, sfd, true, false);
    } else {
      events, t := [], s;
      if m.WriteRequest? && m.write.Some? {
        events := [Runs.Request(sfd, m.write.value, m.delivered)];
      } else if m.WriteReply? && m.reply.Some? {
        events := [Runs.Reply(sfd, m.reply.value.0, m.reply.value.1)];
      } else if o.effect.ret < 0 {
        events := [Runs.Hangup(sfd)];
      }
      if events != [] {
        t := Runs.Next(s, events[0]);
        LeadsOne(s, events[0]);
        Runs.InvStep(s, events[0]);
      }
    }
  }

  /** What client_handler does to the list is a run of its thread's events in the step machine:
      it ends without the thread, or with the server's crash. */
  lemma {:induction false} ServedIsARun(
    s: Runs.System, b: seq<Byte>, sfd: int, inbox: seq<Incoming>, done: seq<Effect>)
    returns (events: seq<Runs.Event>, t: Runs.System)
    requires Runs.Inv(s) && !s.crashed && Runs.At(s, sfd, Runs.Serving) && Crash !in done
    ensures Leads(s, events, t) && AllBy(events, sfd)
    ensures
      var life := Served(s.list, b, sfd, inbox, done);
      t.list == life.list && (t.crashed <==> Crashes(life)) && (t.crashed || sfd !in t.threads)
    decreases |inbox|
  {
    if inbox == [] {
      LeadsOne(s, Runs.Hangup(sfd));
      Runs.InvStep(s, Runs.Hangup(sfd));
      var u := Runs.Next(s, Runs.Hangup(sfd));
      LeavingIsGone(u, b, sfd, done);
      events, t := [Runs.Hangup(sfd), Runs.Leave(sfd)], Runs.Next(u, Runs.Leave(sfd));
      LeadsAppend(s, [Runs.Hangup(sfd)], u, [Runs.Leave(sfd)], t);
      assert events == [Runs.Hangup(sfd)] + [Runs.Leave(sfd)];
    } else {
      var o := Handle(s.list, b, sfd, inbox[0]);
      var u;
      events, u := HandleIsARun(s, b, sfd, inbox[0]);
      t := u;
      if !u.crashed {
        var rest;
        if o.effect.ret < 0 {
          LeavingIsGone(u, o.board, sfd, done + [o.effect]);
          rest, t := [Runs.Leave(sfd)], Runs.Next(u, Runs.Leave(sfd));
        } else {
          rest, t := ServedIsARun(u, o.board, sfd, inbox[1..], done + [o.effect]);
        }
        LeadsAppend(s, events, u, rest, t);
        events := events + rest;
      }
    }
  }

  lemma HandleKeepsClients(l: ListState, b: seq<Byte>, sfd: int, m: Incoming)
    ensures Handle(l, b, sfd, m).list.clients == l.clients
  {
  }

  /** However a thread ends, without a crash the list is as before less the thread's client, and
      the last thing it does is to trigger a status. */
  lemma {:induction false} ServedLeavesOthers(
    l: ListState, b: seq<Byte>, sfd: int, inbox: seq<Incoming>, done: seq<Effect>, life: Life)
    requires Listed(l, sfd) && life == Served(l, b, sfd, inbox, done) && !Crashes(life)
    ensures life.list.clients == Removed(l, sfd).clients
    ensures life.effects != [] && life.effects[|life.effects| - 1] == Effect(0, [], Some(STATUS))
    decreases |inbox|
  {
    if inbox != [] {
      var o := Handle(l, b, sfd, inbox[0]);
      HandleKeepsClients(l, b, sfd, inbox[0]);
      if o.effect.Effect? && o.effect.ret >= 0 {
        ServedLeavesOthers(o.list, o.board, sfd, inbox[1..], done + [o.effect], life);
      }
    }
  }

  /** What a message does to the board when nobody interrupts its handler: only the writer's changes
      it, and a board stays one. It shows what was received, or, if the connection ended before that
      was all, whatever the buffer held behind it. BoardSafety is about interleaved handlers. */
  lemma BoardUninterrupted(l: ListState, b: seq<Byte>, sfd: int, m: Incoming)
    requires IsBoard(b) && WellFormed(m)
    ensures IsBoard(Handle(l, b, sfd, m).board)
    ensures Handle(l, b, sfd, m).board != b ==> HasWriteAccess(l, sfd) && (m.BoardUpdate? || m == Clear(0))
    ensures HasWriteAccess(l, sfd) && m == Clear(0) ==> CString(Handle(l, b, sfd, m).board) == []
    ensures HasWriteAccess(l, sfd) && m.BoardUpdate? ==>
      var text := CString(Handle(l, b, sfd, m).board);
      && (m.brought.None? ==> text == [])
      && (m.brought.Some? ==> text == Fitting(CString(m.brought.value + m.heap[|m.brought.value|..])))
      && (m.brought.Some? && |m.brought.value| == m.length ==> text == Fitting(CString(m.brought.value)))
  {
    BlankText();
    if m.BoardUpdate? && m.brought.Some? {
      var buffer := m.brought.value + m.heap[|m.brought.value|..];
      assert Buffer(m.brought, m.heap).value == buffer;
      assert |m.brought.value| == m.length ==> buffer == m.brought.value;
      StoredText(buffer);
    }
  }
}
