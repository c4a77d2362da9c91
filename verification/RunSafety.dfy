/** What every run of the client threads keeps. */
module RunSafety {
  import opened Commons
  import opened Protocol
  import opened Permissions
  import opened Runs

  // ---------- at most one docent ----------

  predicate DocentEnters(s: System, e: Event) {
    e.Enter? && e.sfd in s.threads && s.threads[e.sfd].Entering? && s.threads[e.sfd].client.role == DOCENT
  }

  /** Whoever enters as docent finds no docent: the login race did not happen here. */
  predicate SafeEntry(s: System, e: Event) {
    DocentEnters(s, e) ==> s.list.docent.None?
  }

  lemma OneDocentEnter(s: System, sfd: int)
    requires Inv(s) && Enabled(s, Enter(sfd)) && OneDocent(s.list)
    ensures OneDocent(Next(s, Enter(sfd)).list) <==> SafeEntry(s, Enter(sfd))
  {
    var l, c := s.list, s.threads[sfd].client;
    var l' := Added(l, c);
    assert l'.clients[|l.clients|] == c;
    assert forall d <- l'.clients :: d in l.clients || d == c;
    if c.role == DOCENT && l.docent.Some? {
      var d := l.docent.value;
      var i :| 0 <= i < |l.clients| && l.clients[i] == d;
      assert l'.clients[i] == d && d.cid != c.cid;
    }
  }

  lemma OneDocentLeave(s: System, sfd: int)
    requires Inv(s) && Enabled(s, Leave(sfd)) && OneDocent(s.list)
    ensures OneDocent(Next(s, Leave(sfd)).list)
  {
    RemovedFacts(s.list, sfd);
    assert forall d <- Removed(s.list, sfd).clients :: d != s.list.clients[IndexOfSfd(s.list.clients, sfd)];
  }

  lemma SameClientsAndDocent(s: System, e: Event)
    requires Enabled(s, e) && !e.Enter? && !e.Leave?
    ensures Next(s, e).list.clients == s.list.clients && Next(s, e).list.docent == s.list.docent
  {
    if e.Request? { RequestedRewrites(s.list, e.sfd, e.write, e.delivered); }
    if e.Reply? { RepliedRewrites(s.list, e.sfd, e.write, e.cid); }
  }

  lemma OneDocentStep(s: System, e: Event)
    requires Inv(s) && Enabled(s, e) && OneDocent(s.list)
    ensures OneDocent(Next(s, e).list) <==> SafeEntry(s, e)
  {
    match e {
      case Enter(sfd) => OneDocentEnter(s, sfd);
      case Leave(sfd) => OneDocentLeave(s, sfd);
      case _ => SameClientsAndDocent(s, e);
    }
  }

  lemma OneDocentNext(states: seq<System>, events: seq<Event>, i: nat)
    requires Run(states, events) && i < |events| && OneDocent(states[i].list)
    ensures OneDocent(states[i + 1].list) <==> SafeEntry(states[i], events[i])
  {
    InvRun(states, events, i);
    assert Enabled(states[i], events[i]);
    OneDocentStep(states[i], events[i]);
  }

  lemma {:induction false} SafeEntriesOneDocent(states: seq<System>, events: seq<Event>, n: nat)
    requires Run(states, events) && n <= |events|
    requires forall i :: 0 <= i < n ==> SafeEntry(states[i], events[i])
    ensures OneDocent(states[n].list)
  {
    if n > 0 {
      SafeEntriesOneDocent(states, events, n - 1);
      OneDocentNext(states, events, n - 1);
    }
  }

  /** In a run there is never more than one docent exactly if no client enters as docent
      while there is one. */
  lemma OneDocentIff(states: seq<System>, events: seq<Event>)
    requires Run(states, events)
    ensures (forall i :: 0 <= i <= |events| ==> OneDocent(states[i].list))
       <==> (forall i :: 0 <= i < |events| ==> SafeEntry(states[i], events[i]))
  {
    if forall i :: 0 <= i <= |events| ==> OneDocent(states[i].list) {
      forall i | 0 <= i < |events| ensures SafeEntry(states[i], events[i]) {
        OneDocentNext(states, events, i);
      }
    }
    if forall i :: 0 <= i < |events| ==> SafeEntry(states[i], events[i]) {
      forall i | 0 <= i <= |events| ensures OneDocent(states[i].list) {
        SafeEntriesOneDocent(states, events, i);
      }
    }
  }

  /** If each client is added directly after its role was decided, as a lock held across
      both would have it, there is never more than one docent. */
  lemma SerialLoginsOneDocent(states: seq<System>, events: seq<Event>)
    requires Run(states, events)
    requires forall i {:trigger events[i]} :: 0 <= i < |events| && events[i].Enter? ==>
               0 < i && events[i - 1] == Decide(events[i].sfd)
    ensures forall i :: 0 <= i < |states| ==> OneDocent(states[i].list)
  {
    forall i | 0 <= i < |events| ensures SafeEntry(states[i], events[i]) {
      assert Enabled(states[i], events[i]);
      if events[i].Enter? {
        assert Enabled(states[i - 1], events[i - 1]) && states[i] == Next(states[i - 1], events[i - 1]);
      }
    }
    OneDocentIff(states, events);
  }

  /** The race: both ask for a docent before either is added, and both become docent. */
  lemma LoginRace() returns (states: seq<System>, events: seq<Event>)
    ensures Run(states, events)
    ensures !OneDocent(states[|events|].list)
  {
    events := [Connect(4, DOCENT, []), Connect(5, DOCENT, []), Decide(4), Decide(5), Enter(4), Enter(5)];
    var s1 := Next(START, events[0]);
    var s2 := Next(s1, events[1]);
    var s3 := Next(s2, events[2]);
    var s4 := Next(s3, events[3]);
    var s5 := Next(s4, events[4]);
    var s6 := Next(s5, events[5]);
    states := [START, s1, s2, s3, s4, s5, s6];
    assert s6.list.clients[0] == Client(1, 4, DOCENT, []);
    assert s6.list.clients[1] == Client(2, 5, DOCENT, []);
  }

  // ---------- who may write ----------

  /** The docent, at `s`, answers yes to the request of the client with this id. */
  predicate Accepts(s: ListState, e: Event, cid: Word) {
    s.docent.Some? && e.Reply? && e.sfd == s.docent.value.sfd && e.write != 0 && e.cid == cid
  }

  /** A client gives its write permission back or logs out. */
  predicate GivesUp(e: Event, c: Client) {
    e.sfd == c.sfd && (e.Leave? || (e.Request? && e.write == 0))
  }

  /** A free right goes to its requester, a granted one to the client the docent named,
      any other to the docent. */
  lemma GainLaw(s: System, e: Event, c: Client)
    requires Inv(s) && Enabled(s, e)
    requires s.list.writer != Some(c) && Next(s, e).list.writer == Some(c)
    ensures
      || Next(s, e).list.docent == Some(c)
      || Accepts(s.list, e, c.cid)
      || (s.list.docent.None? && s.list.writer.None? && e.Request? && e.sfd == c.sfd && e.write != 0)
  {
  }

  /** The right is lost by giving it up, by a docent logging in, or by the docent's own request
      or answer, never by another client's request. */
  lemma LossLaw(s: System, e: Event, c: Client)
    requires Inv(s) && Enabled(s, e)
    requires s.list.writer == Some(c) && Next(s, e).list.writer != Some(c)
    ensures
      || GivesUp(e, c)
      || DocentEnters(s, e)
      || (IsDocent(s.list, e.sfd) && e.write != 0 && (e.Request? || (e.Reply? && FindCid(s.list.clients, e.cid).Some?)))
  {
  }

  /** With a docent and another writer before and after, only the docent's yes moved the right. */
  lemma GrantStep(s: System, e: Event)
    requires Inv(s) && Enabled(s, e)
    requires var l' := Next(s, e).list; l'.docent.Some? && l'.writer.Some? && l'.writer != l'.docent
    ensures
      var l' := Next(s, e).list;
      && s.list.docent == l'.docent
      && (s.list.writer == l'.writer || Accepts(s.list, e, l'.writer.value.cid))
  {
  }

  lemma GrantAt(states: seq<System>, events: seq<Event>, i: nat)
    requires Run(states, events) && i < |events|
    requires var l' := states[i + 1].list; l'.docent.Some? && l'.writer.Some? && l'.writer != l'.docent
    ensures
      var l, l' := states[i].list, states[i + 1].list;
      && l.docent == l'.docent
      && (l.writer == l'.writer || Accepts(l, events[i], l'.writer.value.cid))
  {
    InvRun(states, events, i);
    assert Enabled(states[i], events[i]);
    GrantStep(states[i], events[i]);
  }

  /** Whenever somebody other than the docent may write, this docent answered yes to a request
      naming that client, and since then docent and writer have been these two. */
  lemma {:induction false} WriterWasGranted(states: seq<System>, events: seq<Event>, n: nat) returns (j: nat)
    requires Run(states, events) && n <= |events|
    requires states[n].list.docent.Some? && states[n].list.writer.Some?
    requires states[n].list.writer != states[n].list.docent
    ensures j < n && Accepts(states[j].list, events[j], states[n].list.writer.value.cid)
    ensures states[j].list.writer != states[n].list.writer
    ensures forall k :: j <= k <= n ==> states[k].list.docent == states[n].list.docent
    ensures forall k :: j < k <= n ==> states[k].list.writer == states[n].list.writer
  {
    if n == 0 {
      assert false;
    } else {
      GrantAt(states, events, n - 1);
      if states[n - 1].list.writer == states[n].list.writer {
        j := WriterWasGranted(states, events, n - 1);
      } else {
        j := n - 1;
      }
    }
  }

  lemma LossAt(states: seq<System>, events: seq<Event>, i: nat, c: Client)
    requires Run(states, events) && i < |events|
    requires states[i].list.docent.None? && states[i + 1].list.docent.None?
    requires states[i].list.writer == Some(c) && states[i + 1].list.writer != Some(c)
    ensures GivesUp(events[i], c)
  {
    InvRun(states, events, i);
    assert Enabled(states[i], events[i]);
    LossLaw(states[i], events[i], c);
  }

  /** While no docent is logged in, a writer loses the right only by giving it up. */
  lemma {:induction false} WriterKeepsWithoutDocent(
    states: seq<System>, events: seq<Event>, i: nat, n: nat, c: Client) returns (j: nat)
    requires Run(states, events) && i <= n <= |events|
    requires forall k :: i <= k <= n ==> states[k].list.docent.None?
    requires states[i].list.writer == Some(c) && states[n].list.writer != Some(c)
    ensures i <= j < n && GivesUp(events[j], c) && states[j].list.writer == Some(c)
  {
    if states[n - 1].list.writer == Some(c) {
      LossAt(states, events, n - 1, c);
      j := n - 1;
    } else {
      j := WriterKeepsWithoutDocent(states, events, i, n - 1, c);
    }
  }

  // ---------- NULL pointers ----------

  /** The server follows a NULL pointer exactly when a docent denies a client that is gone, or
      when there is no writer any more at the second look of board_handler's check. Neither
      remove_client nor the old writer of a docent's request can be NULL. */
  lemma CrashLaw(s: System, e: Event)
    requires Inv(s) && Enabled(s, e)
    ensures Next(s, e).crashed <==>
      || (e.Reply? && e.write == 0 && IsDocent(s.list, e.sfd) && FindCid(s.list.clients, e.cid).None?)
      || (e.SecondLook? && s.list.writer.None?)
  {
  }

  lemma DocentAndStudent() returns (states: seq<System>, events: seq<Event>)
    ensures Run(states, events)
    ensures var d, t := Client(1, 4, DOCENT, []), Client(2, 5, STUDENT, []);
      states[|events|] == System(ListState([d, t], Some(d), Some(d)), 2, map[4 := Serving, 5 := Serving], false)
  {
    events := [Connect(4, DOCENT, []), Decide(4), Enter(4), Connect(5, STUDENT, []), Decide(5), Enter(5)];
    var s1 := Next(START, events[0]);
    var s2 := Next(s1, events[1]);
    var s3 := Next(s2, events[2]);
    var s4 := Next(s3, events[3]);
    var s5 := Next(s4, events[4]);
    var s6 := Next(s5, events[5]);
    states := [START, s1, s2, s3, s4, s5, s6];
  }

  /** The requester logs out before the docent says no. */
  lemma LateDenial() returns (states: seq<System>, events: seq<Event>)
    ensures Run(states, events) && states[|events|].crashed
  {
    states, events := DocentAndStudent();
    var d, t := Client(1, 4, DOCENT, []), Client(2, 5, STUDENT, []);
    var s := states[|events|];
    assert IndexOfSfd([d, t], 5) == 1 by { assert [d, t][1..] == [t]; }
    assert Next(s, Request(5, 1, true)) == s;
    var left := Next(s, Hangup(5));
    assert Listed(left.list, 5) by { assert left.list.clients[1].sfd == 5; }
    assert [d, t][..1] + [d, t][2..] == [d];
    var alone := Next(left, Leave(5));
    var crash := Next(alone, Reply(4, 0, 2));
    events := events + [Request(5, 1, true), Hangup(5), Leave(5), Reply(4, 0, 2)];
    states := states + [s, left, alone, crash];
  }

  /** A student's update is between the two looks when the docent, who writes, logs out. */
  lemma WriterGoneBetweenLooks() returns (states: seq<System>, events: seq<Event>)
    ensures Run(states, events) && states[|events|].crashed && events[|events| - 1] == SecondLook(5)
  {
    states, events := DocentAndStudent();
    var d, t := Client(1, 4, DOCENT, []), Client(2, 5, STUDENT, []);
    var s := states[|events|];
    var looking := Next(s, FirstLook(5, false));
    var hung := Next(looking, Hangup(4));
    assert Listed(hung.list, 4) by { assert hung.list.clients[0].sfd == 4; }
    assert [d, t][..0] + [d, t][1..] == [t];
    var alone := Next(hung, Leave(4));
    assert alone.list == ListState([t], None, None);
    var crash := Next(alone, SecondLook(5));
    events := events + [FirstLook(5, false), Hangup(4), Leave(4), SecondLook(5)];
    states := states + [looking, hung, alone, crash];
  }

  /** Only a writer that leaves or releases leaves nobody to write: the docent by leaving, others
      while there is no docent. */
  lemma NobodyWrites(s: System, e: Event)
    requires Inv(s) && Enabled(s, e) && s.list.writer.Some?
    ensures Next(s, e).list.writer.None? <==>
      && (e.Leave? || (e.Request? && e.write == 0))
      && HasWriteAccess(s.list, e.sfd)
      && (s.list.docent.None? || (e.Leave? && IsDocent(s.list, e.sfd)))
  {
    FoundBySfd(s.list.clients, s.list.writer.value);
    if s.list.docent.Some? { FoundBySfd(s.list.clients, s.list.docent.value); }
  }

  /** The first look at `m` finds a writer and the second look at `n` none: in between the writer
      left or released without leaving the right to a docent. */
  lemma {:induction false} WriterVanished(states: seq<System>, events: seq<Event>, m: nat, n: nat) returns (j: nat)
    requires Run(states, events) && m <= n <= |events|
    requires states[m].list.writer.Some? && states[n].list.writer.None?
    ensures m <= j < n && states[j].list.writer.Some? && GivesUp(events[j], states[j].list.writer.value)
    ensures states[j].list.docent.None? || (events[j].Leave? && IsDocent(states[j].list, events[j].sfd))
  {
    if states[n - 1].list.writer.Some? {
      j := n - 1;
      InvRun(states, events, j);
      assert Enabled(states[j], events[j]);
      NobodyWrites(states[j], events[j]);
    } else {
      j := WriterVanished(states, events, m, n - 1);
    }
  }

  /** A step changes no other thread's phase. */
  lemma OthersPhases(s: System, e: Event, f: int)
    requires Enabled(s, e) && f != e.sfd
    ensures f in Next(s, e).threads <==> f in s.threads
    ensures f in s.threads ==> Next(s, e).threads[f] == s.threads[f]
  {
  }

  lemma StartsChecking(s: System, e: Event)
    requires Enabled(s, e) && e.sfd in Next(s, e).threads && Next(s, e).threads[e.sfd].Checking?
    requires !Next(s, e).crashed
    ensures e == FirstLook(e.sfd, Next(s, e).threads[e.sfd].clear) && s.list.writer.Some?
  {
  }

  lemma {:induction false} CheckingSince(states: seq<System>, events: seq<Event>, n: nat, f: int) returns (m: nat)
    requires Run(states, events) && n <= |events| && !states[n].crashed
    requires f in states[n].threads && states[n].threads[f].Checking?
    ensures m < n && events[m] == FirstLook(f, states[n].threads[f].clear) && states[m].list.writer.Some?
    ensures states[m + 1].list == states[m].list
  {
    assert Enabled(states[n - 1], events[n - 1]);
    if events[n - 1].sfd == f {
      m := n - 1;
      StartsChecking(states[m], events[m]);
    } else {
      OthersPhases(states[n - 1], events[n - 1], f);
      m := CheckingSince(states, events, n - 1, f);
    }
  }

  /** In every run that crashes in board_handler's check, the first look found a writer that left
      or released before the second one, and left the right to nobody. */
  lemma NullAtSecondLook(states: seq<System>, events: seq<Event>, n: nat) returns (m: nat, j: nat)
    requires Run(states, events) && n < |events| && events[n].SecondLook? && states[n + 1].crashed
    ensures m < j < n && events[m].FirstLook? && events[m].sfd == events[n].sfd
    ensures states[j].list.writer.Some? && GivesUp(events[j], states[j].list.writer.value)
    ensures states[j].list.docent.None? || (events[j].Leave? && IsDocent(states[j].list, events[j].sfd))
  {
    assert Enabled(states[n], events[n]);
    m := CheckingSince(states, events, n, events[n].sfd);
    j := WriterVanished(states, events, m + 1, n);
  }

  // ---------- when the right moves ----------

  /** Exactly the steps after which somebody else, or nobody, may write (see RightMovesIff). */
  predicate RightMoves(l: ListState, threads: map<int, Phase>, e: Event) {
    match e
    case Enter(sfd) => sfd in threads && threads[sfd].Entering? && threads[sfd].client.role == DOCENT
    case Leave(sfd) => HasWriteAccess(l, sfd)
    case Request(sfd, write, _) =>
      if write == 0 then HasWriteAccess(l, sfd) && !IsDocent(l, sfd)
      else if IsDocent(l, sfd) then l.writer != l.docent
      else l.docent.None? && l.writer.None?
    case Reply(sfd, write, cid) =>
      IsDocent(l, sfd) && write != 0 && FindCid(l.clients, cid).Some? && FindCid(l.clients, cid) != l.writer
    case _ => false
  }

  /** Descriptors tell listed clients apart, and so who has the right. */
  lemma AccessIsWriting(l: ListState, c: Client)
    requires DistinctSfds(l.clients) && PointersOk(l) && c in l.clients
    ensures HasWriteAccess(l, c.sfd) <==> l.writer == Some(c)
    ensures IsDocent(l, c.sfd) <==> l.docent == Some(c)
    ensures FindSfd(l.clients, c.sfd) == Some(c)
  {
    FoundBySfd(l.clients, c);
    if l.writer.Some? { FoundBySfd(l.clients, l.writer.value); }
    if l.docent.Some? { FoundBySfd(l.clients, l.docent.value); }
  }

  /** The writer changes exactly when a docent enters, the writer leaves, a writer other than the
      docent releases, the docent takes the right back or gives it to another listed client, or
      somebody takes the free right. */
  lemma RightMovesIff(s: System, e: Event)
    requires Inv(s) && Enabled(s, e)
    ensures Next(s, e).list.writer != s.list.writer <==> RightMoves(s.list, s.threads, e)
  {
  }

  /** When the right moves, whoever had it has it no more. */
  lemma MovesAway(s: System, e: Event, sfd: int)
    requires Inv(s) && Enabled(s, e) && HasWriteAccess(s.list, sfd) && RightMoves(s.list, s.threads, e)
    ensures !HasWriteAccess(Next(s, e).list, sfd)
  {
    var c, s' := s.list.writer.value, Next(s, e);
    RightMovesIff(s, e);
    InvStep(s, e);
    if e.Leave? && e.sfd == sfd {
      RemovedFacts(s.list, sfd);
    } else {
      StillListed(s, e, c);
      AccessIsWriting(s'.list, c);
    }
  }

  /** Only its own thread takes a client out. */
  lemma StillListed(s: System, e: Event, c: Client)
    requires Inv(s) && Enabled(s, e) && c in s.list.clients && !(e.Leave? && e.sfd == c.sfd)
    ensures c in Next(s, e).list.clients
  {
    if e.Leave? {
      RemovedFacts(s.list, e.sfd);
    } else {
      OnlyLeaveRemoves(s, e, c);
    }
  }

  // ---------- ids ----------

  function Connects(events: seq<Event>): nat {
    if events == [] then 0
    else Connects(events[..|events| - 1]) + if events[|events| - 1].Connect? then 1 else 0
  }

  lemma ConnectGetsNext(s: System, e: Event)
    requires Enabled(s, e)
    ensures Next(s, e).counter == if e.Connect? then AfterCid(s.counter) else s.counter
    ensures e.Connect? ==>
      if s.counter < 0xFFFF then At(Next(s, e), e.sfd, Deciding(s.counter + 1, e.asked, e.name))
      else Next(s, e).threads == s.threads
  {
  }

  lemma CounterAt(states: seq<System>, events: seq<Event>, i: nat)
    requires Run(states, events) && i < |events|
    ensures states[i + 1].counter == if events[i].Connect? then AfterCid(states[i].counter) else states[i].counter
    ensures events[i].Connect? ==>
      if states[i].counter < 0xFFFF then
        At(states[i + 1], events[i].sfd, Deciding(states[i].counter + 1, events[i].asked, events[i].name))
      else
        states[i + 1].threads == states[i].threads
  {
    assert Enabled(states[i], events[i]);
    ConnectGetsNext(states[i], events[i]);
  }

  /** The counter is the number of connections, up to 65535. */
  lemma {:induction false} CounterCounts(states: seq<System>, events: seq<Event>, n: nat)
    requires Run(states, events) && n <= |events|
    ensures states[n].counter == if Connects(events[..n]) < 0xFFFF then Connects(events[..n]) else 0xFFFF
  {
    if n > 0 {
      CounterCounts(states, events, n - 1);
      CounterAt(states, events, n - 1);
      assert events[..n][..n - 1] == events[..n - 1];
    }
  }

  /** The k-th connection gets id k up to 65535; later ones get 0 and are turned away. */
  lemma IdsInOrder(states: seq<System>, events: seq<Event>, n: nat)
    requires Run(states, events) && n < |events| && events[n].Connect?
    ensures
      var k := Connects(events[..n]) + 1;
      if k <= 0xFFFF then At(states[n + 1], events[n].sfd, Deciding(k, events[n].asked, events[n].name))
      else states[n + 1].threads == states[n].threads
  {
    CounterCounts(states, events, n);
    CounterAt(states, events, n);
  }

  /** An id that was handed out and belongs to nobody any more. */
  ghost predicate Gone(s: System, cid: Word) {
    && cid <= s.counter
    && (forall c <- s.list.clients :: c.cid != cid)
    && (forall f <- s.threads :: HasPending(s.threads[f]) ==> PendingCid(s.threads[f]) != cid)
  }

  lemma GoneAfterLeave(s: System, sfd: int, cid: Word)
    requires Inv(s) && Enabled(s, Leave(sfd)) && Gone(s, cid)
    ensures Gone(Next(s, Leave(sfd)), cid)
  {
    RemovedFacts(s.list, sfd);
  }

  lemma GoneAfterConnect(s: System, e: Event, cid: Word)
    requires Inv(s) && Enabled(s, e) && Gone(s, cid) && cid > 0 && (e.Connect? || e.Decide? || e.Enter?)
    ensures Gone(Next(s, e), cid)
  {
  }

  /** Steps of threads in their message loop change nobody's id. */
  lemma GoneInLoop(s: System, sfd: int, s': System, cid: Word)
    requires Gone(s, cid) && SameButPhase(s.threads, sfd, s'.threads)
    requires s'.list.clients == s.list.clients && s'.counter == s.counter
    ensures Gone(s', cid)
  {
  }

  lemma LoopPhases(s: System, e: Event)
    requires Enabled(s, e) && !e.Connect? && !e.Decide? && !e.Enter? && !e.Leave?
    ensures SameButPhase(s.threads, e.sfd, Next(s, e).threads) && Next(s, e).counter == s.counter
  {
    match e {
      case Request(sfd, write, delivered) => HandledPhases(s, sfd, Requested(s.list, sfd, write, delivered));
      case Reply(sfd, write, cid) => HandledPhases(s, sfd, Replied(s.list, sfd, write, cid));
      case _ =>
    }
  }

  lemma GoneStep(s: System, e: Event, cid: Word)
    requires Inv(s) && Enabled(s, e) && Gone(s, cid) && cid > 0
    ensures Gone(Next(s, e), cid)
  {
    if e.Leave? {
      GoneAfterLeave(s, e.sfd, cid);
    } else if e.Connect? || e.Decide? || e.Enter? {
      GoneAfterConnect(s, e, cid);
    } else {
      LoopPhases(s, e);
      SameClientsAndDocent(s, e);
      GoneInLoop(s, e.sfd, Next(s, e), cid);
    }
  }

  lemma {:induction false} GoneForGood(states: seq<System>, events: seq<Event>, i: nat, n: nat, cid: Word)
    requires Run(states, events) && i <= n <= |events|
    requires Gone(states[i], cid) && cid > 0
    ensures Gone(states[n], cid)
  {
    if i < n {
      GoneForGood(states, events, i, n - 1, cid);
      InvRun(states, events, n - 1);
      assert Enabled(states[n - 1], events[n - 1]);
      GoneStep(states[n - 1], events[n - 1], cid);
    }
  }

  lemma OnlyLeaveRemoves(s: System, e: Event, c: Client)
    requires Inv(s) && Enabled(s, e) && c in s.list.clients && !e.Leave?
    ensures c in Next(s, e).list.clients
  {
    if e.Enter? {
      var i :| 0 <= i < |s.list.clients| && s.list.clients[i] == c;
      assert Next(s, e).list.clients[i] == c;
    } else {
      SameClientsAndDocent(s, e);
    }
  }

  lemma LeaversAreGone(s: System, e: Event, c: Client)
    requires Inv(s) && Enabled(s, e) && e.Leave? && c in s.list.clients && c !in Next(s, e).list.clients
    ensures Gone(Next(s, e), c.cid)
  {
    RemovedFacts(s.list, e.sfd);
    forall d <- Next(s, e).list.clients ensures d.cid != c.cid {
      if d.cid == c.cid { SameClient(s.list.clients, c, d); }
    }
  }

  lemma LeftAt(states: seq<System>, events: seq<Event>, m: nat, c: Client)
    requires Run(states, events) && m < |events|
    requires c in states[m].list.clients && c !in states[m + 1].list.clients
    ensures Gone(states[m + 1], c.cid)
  {
    InvRun(states, events, m);
    assert Enabled(states[m], events[m]);
    if !events[m].Leave? { OnlyLeaveRemoves(states[m], events[m], c); }
    LeaversAreGone(states[m], events[m], c);
  }

  lemma {:induction false} GoneOnceLeft(states: seq<System>, events: seq<Event>, i: nat, j: nat, c: Client)
    requires Run(states, events) && i <= j <= |events| && c.cid > 0
    requires c in states[i].list.clients && c !in states[j].list.clients
    ensures Gone(states[j], c.cid)
  {
    if c in states[j - 1].list.clients {
      LeftAt(states, events, j - 1, c);
    } else {
      GoneOnceLeft(states, events, i, j - 1, c);
      GoneForGood(states, events, j - 1, j, c.cid);
    }
  }

  /** A client that has left never comes back, and neither does its id: no grant naming it
      can promote anybody. */
  lemma DepartedStaysAway(
    states: seq<System>, events: seq<Event>, i: nat, j: nat, n: nat, c: Client)
    requires Run(states, events) && i <= j <= n <= |events|
    requires c in states[i].list.clients && c !in states[j].list.clients
    ensures FindCid(states[n].list.clients, c.cid).None?
    ensures forall sfd, write :: write != 0 ==> Replied(states[n].list, sfd, write, c.cid).0 == states[n].list
  {
    InvRun(states, events, i);
    GoneOnceLeft(states, events, i, j, c);
    GoneForGood(states, events, j, n, c.cid);
  }

  /** The docent's answer to a query, however late, is about the client that was in the list with the
      query's id: a yes makes exactly that client the writer and does nothing if it has left, a no
      changes nothing and crashes the server exactly if it has left. */
  lemma AnswerMeansAsker(
    states: seq<System>, events: seq<Event>, i: nat, n: nat, c: Client, docent: int, answer: Byte)
    requires Run(states, events) && i <= n < |events| && c in states[i].list.clients
    requires events[n] == Reply(docent, answer, c.cid) && IsDocent(states[n].list, docent)
    ensures states[n + 1].list.writer ==
      if answer != 0 && c in states[n].list.clients then Some(c) else states[n].list.writer
    ensures states[n + 1].crashed <==> answer == 0 && c !in states[n].list.clients
  {
    InvRun(states, events, n);
    assert Enabled(states[n], events[n]);
    if c in states[n].list.clients {
      IdFindsItsOwner(states[n], c);
    } else {
      DepartedStaysAway(states, events, i, n, n, c);
    }
    HandledPhases(states[n], docent, Replied(states[n].list, docent, answer, c.cid));
  }

  /** get_user_cid finds the one client with the id. */
  lemma IdFindsItsOwner(s: System, c: Client)
    requires Inv(s) && c in s.list.clients
    ensures FindCid(s.list.clients, c.cid) == Some(c)
  {
    var k := IndexOfCid(s.list.clients, c.cid);
    var i :| 0 <= i < |s.list.clients| && s.list.clients[i] == c;
    assert k == i;
  }

  lemma {:induction false} Pigeonhole(ids: set<int>, n: nat)
    requires forall i <- ids :: 0 < i <= n
    ensures |ids| <= n
  {
    if n == 0 {
      assert forall i: int :: i !in ids;
    } else {
      Pigeonhole(ids - {n}, n - 1);
    }
  }

  function Ids(clients: seq<Client>): set<int> {
    if clients == [] then {} else Ids(clients[..|clients| - 1]) + {clients[|clients| - 1].cid as int}
  }

  lemma {:induction false} CountIds(clients: seq<Client>)
    requires DistinctCids(clients)
    ensures |Ids(clients)| == |clients|
    ensures forall x <- Ids(clients) :: exists i :: 0 <= i < |clients| && clients[i].cid == x
  {
    var n := |clients|;
    if n > 0 {
      var rest := clients[..n - 1];
      CountIds(rest);
      forall x <- Ids(clients) ensures exists i :: 0 <= i < n && clients[i].cid == x {
        if x in Ids(rest) {
          var i :| 0 <= i < n - 1 && rest[i].cid == x;
          assert clients[i].cid == x;
        } else {
          assert clients[n - 1].cid == x;
        }
      }
    }
  }

  /** The number of clients fits the 16 bits of the status message. */
  lemma ListFits(s: System)
    requires Inv(s)
    ensures |s.list.clients| <= s.counter <= 0xFFFF
  {
    CountIds(s.list.clients);
    Pigeonhole(Ids(s.list.clients), s.counter);
  }
}
