/**
 The server's client threads (src/server/client_thread.c) as a step machine. Every section
 that holds a lock is one step. Logging in takes three: login_handler gets an id, asks for
 a docent and adds the client under three different locks, so other threads run in between.
 board_handler asks for the writer without any lock, and has_write_access() reads user_write
 twice: first for NULL, then for the descriptor. These are two steps as well.
 */
module Runs {
  import opened Commons
  import opened Permissions

  /** Where a client thread is; a descriptor without a phase has no thread. `Checking` is between
      the two reads of board_handler's check, `Writing` in the rest of it, for a clear or an update. */
  datatype Phase =
    | Deciding(cid: Word, asked: Byte, name: seq<Byte>)
    | Entering(client: Client)
    | Serving
    | Checking(clear: bool)
    | Writing(clear: bool)
    | Leaving

  datatype System = System(list: ListState, counter: Word, threads: map<int, Phase>, crashed: bool)

  datatype Event =
    | Connect(sfd: int, asked: Byte, name: seq<Byte>)
    | Decide(sfd: int)
    | Enter(sfd: int)
    | Request(sfd: int, write: Byte, delivered: bool)
    | Reply(sfd: int, write: Byte, cid: Word)
    | FirstLook(sfd: int, clear: bool)
    | SecondLook(sfd: int)
    | Finish(sfd: int, failed: bool)
    | Hangup(sfd: int)
    | Leave(sfd: int)

  const START := System(ListState([], None, None), 0, map[], false)

  predicate At(s: System, sfd: int, phase: Phase) {
    sfd in s.threads && s.threads[sfd] == phase
  }

  predicate Enabled(s: System, e: Event) {
    && !s.crashed
    && match e
       case Connect(sfd, _, _) => sfd !in s.threads
       case Decide(sfd) => sfd in s.threads && s.threads[sfd].Deciding?
       case Enter(sfd) => sfd in s.threads && s.threads[sfd].Entering?
       case SecondLook(sfd) => sfd in s.threads && s.threads[sfd].Checking?
       case Finish(sfd, failed) => At(s, sfd, Writing(false)) || (At(s, sfd, Writing(true)) && !failed)
       case Leave(sfd) => At(s, sfd, Leaving)
       case _ => At(s, e.sfd, Serving)
  }

  /** A handler ran: a negative result ends the thread's loop, a NULL pointer the server. */
  function Handled(s: System, sfd: int, result: (ListState, Effect)): System {
    match result.1
    case Crash => s.(list := result.0, crashed := true)
    case Effect(ret, _, _, _) =>
      s.(list := result.0, threads := if ret < 0 then s.threads[sfd := Leaving] else s.threads)
  }

  /** The second read of user_write, with the test of its descriptor. */
  function Checked(s: System, sfd: int, clear: bool): System {
    if s.list.writer.None? then s.(crashed := true)
    else s.(threads := s.threads[sfd := if s.list.writer.value.sfd == sfd then Writing(clear) else Serving])
  }

  function Next(s: System, e: Event): System
    requires Enabled(s, e)
  {
    match e
    case Connect(sfd, asked, name) =>
      var cid := NextCid(s.counter);
      s.(counter := AfterCid(s.counter),
         threads := if cid == 0 then s.threads else s.threads[sfd := Deciding(cid, asked, name)])
    case Decide(sfd) =>
      var p := s.threads[sfd];
      var role := DecidedRole(p.asked, s.list.docent.Some?);
      s.(threads := s.threads[sfd := Entering(Client(p.cid, sfd, role, p.name))])
    case Enter(sfd) =>
      s.(list := Added(s.list, s.threads[sfd].client), threads := s.threads[sfd := Serving])
    case Request(sfd, write, delivered) =>
      Handled(s, sfd, Requested(s.list, sfd, write, delivered))
    case Reply(sfd, write, cid) =>
      Handled(s, sfd, Replied(s.list, sfd, write, cid))
    case FirstLook(sfd, clear) =>
      if s.list.writer.None? then s else s.(threads := s.threads[sfd := Checking(clear)])
    case SecondLook(sfd) =>
      Checked(s, sfd, s.threads[sfd].clear)
    case Finish(sfd, failed) =>
      s.(threads := s.threads[sfd := if failed then Leaving else Serving])
    case Hangup(sfd) =>
      s.(threads := s.threads[sfd := Leaving])
    case Leave(sfd) =>
      if Listed(s.list, sfd) then s.(list := Removed(s.list, sfd), threads := s.threads - {sfd})
      else s.(crashed := true)
  }

  /** `states` are the states that `events` lead through from the start. */
  ghost predicate Run(states: seq<System>, events: seq<Event>) {
    && |states| == |events| + 1
    && states[0] == START
    && forall i {:trigger events[i]} :: 0 <= i < |events| ==>
         Enabled(states[i], events[i]) && states[i + 1] == Next(states[i], events[i])
  }

  // ---------- the invariant ----------

  predicate HasPending(p: Phase) { p.Deciding? || p.Entering? }

  function PendingCid(p: Phase): Word
    requires HasPending(p)
  {
    if p.Deciding? then p.cid else p.client.cid
  }

  predicate InList(p: Phase) { !p.Deciding? && !p.Entering? }

  /** No two descriptors in the list are the same. */
  predicate DistinctSfds(clients: seq<Client>) {
    forall i, j :: 0 <= i < j < |clients| ==> clients[i].sfd != clients[j].sfd
  }

  /** Ids lie in 1..counter and nobody else has mine. */
  ghost predicate IdsOk(s: System) {
    && DistinctCids(s.list.clients)
    && (forall c <- s.list.clients :: 0 < c.cid <= s.counter)
    && (forall f <- s.threads :: HasPending(s.threads[f]) ==> 0 < PendingCid(s.threads[f]) <= s.counter)
    && (forall f <- s.threads, c <- s.list.clients :: HasPending(s.threads[f]) ==> PendingCid(s.threads[f]) != c.cid)
    && (forall f <- s.threads, g <- s.threads :: f != g && HasPending(s.threads[f]) && HasPending(s.threads[g])
          ==> PendingCid(s.threads[f]) != PendingCid(s.threads[g]))
  }

  /** The threads in their message loop are exactly the clients in the list. */
  ghost predicate ThreadsOk(s: System) {
    && DistinctSfds(s.list.clients)
    && (forall c <- s.list.clients :: c.sfd in s.threads && InList(s.threads[c.sfd]))
    && (forall f <- s.threads :: InList(s.threads[f]) ==> Listed(s.list, f))
    && (forall f <- s.threads :: s.threads[f].Entering? ==> s.threads[f].client.sfd == f)
  }

  /** Both pointers are NULL or in the list, and a docent implies a writer. */
  predicate PointersOk(l: ListState) {
    && (l.docent.Some? ==> l.docent.value in l.clients && l.docent.value.role == DOCENT)
    && (l.writer.Some? ==> l.writer.value in l.clients)
    && (l.docent.Some? ==> l.writer.Some?)
  }

  ghost predicate Inv(s: System) {
    IdsOk(s) && ThreadsOk(s) && PointersOk(s.list)
  }

  /** At most one client has the role DOCENT, and user_docent points to it. */
  predicate OneDocent(l: ListState) {
    forall c <- l.clients :: c.role == DOCENT ==> l.docent == Some(c)
  }

  lemma SameClient(clients: seq<Client>, a: Client, b: Client)
    requires DistinctCids(clients) && a in clients && b in clients && a.cid == b.cid
    ensures a == b
  {
    var i :| 0 <= i < |clients| && clients[i] == a;
    var j :| 0 <= j < |clients| && clients[j] == b;
    assert i == j;
  }

  lemma FoundBySfd(clients: seq<Client>, c: Client)
    requires DistinctSfds(clients) && c in clients
    ensures FindSfd(clients, c.sfd) == Some(c)
  {
    var i :| 0 <= i < |clients| && clients[i] == c;
    var k := IndexOfSfd(clients, c.sfd);
    assert k == i;
  }

  /** Taking out one position keeps distinctness. */
  lemma WithoutDistinct(clients: seq<Client>, k: nat)
    requires k < |clients| && DistinctCids(clients) && DistinctSfds(clients)
    ensures DistinctCids(clients[..k] + clients[k + 1..]) && DistinctSfds(clients[..k] + clients[k + 1..])
  {
    var rest := clients[..k] + clients[k + 1..];
    forall i, j | 0 <= i < j < |rest| ensures rest[i].cid != rest[j].cid && rest[i].sfd != rest[j].sfd {
      var i', j' := if i < k then i else i + 1, if j < k then j else j + 1;
      assert rest[i] == clients[i'] && rest[j] == clients[j'];
    }
  }

  /** Taking out the client with a descriptor leaves exactly those with another one. */
  lemma WithoutMembers(clients: seq<Client>, k: nat, c: Client)
    requires k < |clients| && DistinctSfds(clients)
    ensures c in clients[..k] + clients[k + 1..] <==> c in clients && c.sfd != clients[k].sfd
  {
    var rest := clients[..k] + clients[k + 1..];
    if c in clients && c.sfd != clients[k].sfd {
      var i :| 0 <= i < |clients| && clients[i] == c;
      assert rest[if i < k then i else i - 1] == c;
    }
    if c in rest {
      var i :| 0 <= i < |rest| && rest[i] == c;
      assert clients[if i < k then i else i + 1] == c;
    }
  }

  /** What remove_client leaves: everybody but the one with the descriptor. */
  lemma RemovedFacts(l: ListState, sfd: int)
    requires Listed(l, sfd) && DistinctCids(l.clients) && DistinctSfds(l.clients)
    ensures DistinctCids(Removed(l, sfd).clients) && DistinctSfds(Removed(l, sfd).clients)
    ensures forall c :: c in Removed(l, sfd).clients <==> c in l.clients && c.sfd != sfd
  {
    var k := IndexOfSfd(l.clients, sfd);
    WithoutDistinct(l.clients, k);
    forall c ensures c in Removed(l, sfd).clients <==> c in l.clients && c.sfd != sfd {
      WithoutMembers(l.clients, k, c);
    }
  }

  lemma RemovedPointers(l: ListState, sfd: int)
    requires Listed(l, sfd) && DistinctCids(l.clients) && DistinctSfds(l.clients) && PointersOk(l)
    ensures PointersOk(Removed(l, sfd))
  {
    RemovedFacts(l, sfd);
    var gone := l.clients[IndexOfSfd(l.clients, sfd)];
    if l.docent.Some? && l.docent.value.sfd == sfd { FoundBySfd(l.clients, l.docent.value); }
    if l.writer.Some? && l.writer.value.sfd == sfd { FoundBySfd(l.clients, l.writer.value); }
  }

  lemma EnterIds(s: System, sfd: int)
    requires IdsOk(s) && Enabled(s, Enter(sfd))
    ensures IdsOk(Next(s, Enter(sfd)))
  {
    var c := s.threads[sfd].client;
    var clients := s.list.clients;
    assert forall d <- clients :: d.cid != c.cid;
    assert DistinctCids(clients + [c]);
    assert forall d <- clients + [c] :: d in clients || d == c;
  }

  lemma AddedSfds(l: ListState, c: Client)
    requires DistinctSfds(l.clients) && forall d <- l.clients :: d.sfd != c.sfd
    ensures DistinctSfds(Added(l, c).clients)
    ensures forall f :: Listed(l, f) || f == c.sfd ==> Listed(Added(l, c), f)
  {
    var clients := l.clients;
    assert (clients + [c])[|clients|].sfd == c.sfd;
    forall f | Listed(l, f) ensures Listed(Added(l, c), f) {
      var i :| 0 <= i < |clients| && clients[i].sfd == f;
      assert (clients + [c])[i].sfd == f;
    }
  }

  lemma EnterThreads(s: System, sfd: int)
    requires Inv(s) && Enabled(s, Enter(sfd))
    ensures ThreadsOk(Next(s, Enter(sfd)))
  {
    var c := s.threads[sfd].client;
    var clients := s.list.clients;
    forall d <- clients ensures d.sfd != sfd { assert InList(s.threads[d.sfd]); }
    AddedSfds(s.list, c);
    assert forall d <- clients + [c] :: d in clients || d == c;
  }

  lemma EnterPointers(l: ListState, c: Client)
    requires PointersOk(l)
    ensures PointersOk(Added(l, c))
  {
    assert (l.clients + [c])[|l.clients|] == c;
  }

  lemma LeaveIds(s: System, sfd: int)
    requires Inv(s) && Enabled(s, Leave(sfd))
    ensures IdsOk(Next(s, Leave(sfd)))
  {
    RemovedFacts(s.list, sfd);
  }

  lemma LeaveThreads(s: System, sfd: int)
    requires Inv(s) && Enabled(s, Leave(sfd))
    ensures ThreadsOk(Next(s, Leave(sfd)))
  {
    var s' := Next(s, Leave(sfd));
    RemovedFacts(s.list, sfd);
    forall f | f != sfd && Listed(s.list, f) ensures Listed(s'.list, f) {
      var i :| 0 <= i < |s.list.clients| && s.list.clients[i].sfd == f;
      assert s.list.clients[i] in s'.list.clients;
    }
  }

  lemma LeaveStep(s: System, sfd: int)
    requires Inv(s) && Enabled(s, Leave(sfd))
    ensures Inv(Next(s, Leave(sfd)))
  {
    LeaveIds(s, sfd);
    LeaveThreads(s, sfd);
    RemovedPointers(s.list, sfd);
  }

  lemma ConnectStep(s: System, e: Event)
    requires Inv(s) && Enabled(s, e) && e.Connect?
    ensures Inv(Next(s, e))
  {
  }

  lemma DecideStep(s: System, e: Event)
    requires Inv(s) && Enabled(s, e) && e.Decide?
    ensures Inv(Next(s, e))
  {
    var s' := Next(s, e);
    assert forall f <- s.threads :: HasPending(s.threads[f]) ==> PendingCid(s'.threads[f]) == PendingCid(s.threads[f]);
  }

  /** Only the phase of a listed client's thread changes, and to one of a listed client. */
  predicate SameButPhase(threads: map<int, Phase>, sfd: int, threads': map<int, Phase>) {
    && sfd in threads && InList(threads[sfd])
    && sfd in threads' && InList(threads'[sfd])
    && threads' == threads[sfd := threads'[sfd]]
  }

  /** A thread goes on in its loop or leaves it, and at most the writer changes. */
  lemma LoopStep(s: System, sfd: int, s': System)
    requires Inv(s) && SameButPhase(s.threads, sfd, s'.threads)
    requires s'.list.clients == s.list.clients && PointersOk(s'.list) && s'.counter == s.counter
    ensures Inv(s')
  {
    assert forall f <- s.threads :: s'.threads[f] == s.threads[f] || (InList(s'.threads[f]) && InList(s.threads[f]));
  }

  /** A handler keeps the clients and leaves the right, or gives it to the docent or a listed client. */
  predicate Rewritten(l: ListState, l': ListState) {
    && l'.clients == l.clients && l'.docent == l.docent
    && (l'.writer == l.writer || l'.writer == l.docent || (l'.writer.Some? && l'.writer.value in l.clients))
  }

  lemma RequestedRewrites(l: ListState, sfd: int, write: Byte, delivered: bool)
    ensures Rewritten(l, Requested(l, sfd, write, delivered).0)
    ensures PointersOk(l) ==> PointersOk(Requested(l, sfd, write, delivered).0)
  {
    var k := IndexOfSfd(l.clients, sfd);
    assert FindSfd(l.clients, sfd).Some? ==> FindSfd(l.clients, sfd).value == l.clients[k];
  }

  lemma RepliedRewrites(l: ListState, sfd: int, write: Byte, cid: Word)
    ensures Rewritten(l, Replied(l, sfd, write, cid).0)
    ensures PointersOk(l) ==> PointersOk(Replied(l, sfd, write, cid).0)
  {
  }

  lemma HandledPhases(s: System, sfd: int, result: (ListState, Effect))
    requires At(s, sfd, Serving)
    ensures SameButPhase(s.threads, sfd, Handled(s, sfd, result).threads)
    ensures Handled(s, sfd, result).list == result.0 && Handled(s, sfd, result).counter == s.counter
  {
  }

  lemma RequestStep(s: System, e: Event)
    requires Inv(s) && Enabled(s, e) && e.Request?
    ensures Inv(Next(s, e))
  {
    var result := Requested(s.list, e.sfd, e.write, e.delivered);
    RequestedRewrites(s.list, e.sfd, e.write, e.delivered);
    HandledPhases(s, e.sfd, result);
    LoopStep(s, e.sfd, Handled(s, e.sfd, result));
  }

  lemma ReplyStep(s: System, e: Event)
    requires Inv(s) && Enabled(s, e) && e.Reply?
    ensures Inv(Next(s, e))
  {
    var result := Replied(s.list, e.sfd, e.write, e.cid);
    RepliedRewrites(s.list, e.sfd, e.write, e.cid);
    HandledPhases(s, e.sfd, result);
    LoopStep(s, e.sfd, Handled(s, e.sfd, result));
  }

  /** The steps of board_handler and the end of the loop only change the thread's phase. */
  predicate OnlyPhase(e: Event) {
    e.FirstLook? || e.SecondLook? || e.Finish? || e.Hangup?
  }

  lemma PhaseStep(s: System, e: Event)
    requires Inv(s) && Enabled(s, e) && OnlyPhase(e)
    ensures Inv(Next(s, e))
    ensures Next(s, e).list == s.list && Next(s, e).counter == s.counter
  {
    LoopStep(s, e.sfd, Next(s, e));
  }

  lemma EnterStep(s: System, e: Event)
    requires Inv(s) && Enabled(s, e) && e.Enter?
    ensures Inv(Next(s, e))
  {
    EnterIds(s, e.sfd);
    EnterThreads(s, e.sfd);
    EnterPointers(s.list, s.threads[e.sfd].client);
  }

  /** Every step keeps the invariant. */
  lemma InvStep(s: System, e: Event)
    requires Inv(s) && Enabled(s, e)
    ensures Inv(Next(s, e))
  {
    match e {
      case Connect(_, _, _) => ConnectStep(s, e);
      case Decide(_) => DecideStep(s, e);
      case Enter(_) => EnterStep(s, e);
      case Request(_, _, _) => RequestStep(s, e);
      case Reply(_, _, _) => ReplyStep(s, e);
      case Leave(sfd) => LeaveStep(s, sfd);
      case _ => PhaseStep(s, e);
    }
  }

  lemma {:induction false} InvRun(states: seq<System>, events: seq<Event>, n: nat)
    requires Run(states, events) && n <= |events|
    ensures Inv(states[n])
  {
    if n > 0 {
      InvRun(states, events, n - 1);
      assert Enabled(states[n - 1], events[n - 1]);
      InvStep(states[n - 1], events[n - 1]);
    }
  }
}
