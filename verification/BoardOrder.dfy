/** In which order a client is sent newer and older boards. */
module BoardOrder {
  import opened Commons
  import opened Permissions
  import opened Blackboards
  import opened BoardViews
  import Runs
  import RunSafety
  import Handshake
  import BoardRuns
  import BoardSafety

  // ---------- the copies of one client ----------

  /** Every copy has been read, those of the agent are in the order of their versions, and at most
      one is of a login, none while the login is `pending`. */
  predicate CopiesOk(copies: seq<Copy>, seen: map<nat, nat>, pending: bool) {
    && (forall x :: 0 <= x < |copies| ==> copies[x].reader in seen)
    && (forall p, q :: 0 <= p < q < |copies| && !copies[p].login && !copies[q].login ==>
          seen[copies[p].reader] <= seen[copies[q].reader])
    && (forall p, q :: 0 <= p < q < |copies| ==> !(copies[p].login && copies[q].login))
    && (pending ==> forall x :: 0 <= x < |copies| ==> !copies[x].login)
  }

  /** The agent has sent no version later than v. */
  predicate AgentUpTo(copies: seq<Copy>, seen: map<nat, nat>, v: nat) {
    forall x :: 0 <= x < |copies| && !copies[x].login && copies[x].reader in seen ==> seen[copies[x].reader] <= v
  }

  lemma CopiesKept(copies: seq<Copy>, seen: map<nat, nat>, seen': map<nat, nat>, pending: bool)
    requires CopiesOk(copies, seen, pending) && Kept(seen, seen')
    ensures CopiesOk(copies, seen', pending)
    ensures forall v :: AgentUpTo(copies, seen, v) ==> AgentUpTo(copies, seen', v)
  {
  }

  lemma LoginCopy(copies: seq<Copy>, seen: map<nat, nat>, reader: nat)
    requires CopiesOk(copies, seen, true) && reader in seen
    ensures CopiesOk(copies + [Copy(reader, true)], seen, false)
    ensures forall v :: AgentUpTo(copies, seen, v) ==> AgentUpTo(copies + [Copy(reader, true)], seen, v)
  {
  }

  lemma AgentCopy(copies: seq<Copy>, seen: map<nat, nat>, reader: nat, pending: bool)
    requires CopiesOk(copies, seen, pending) && reader in seen && AgentUpTo(copies, seen, seen[reader])
    ensures CopiesOk(copies + [Copy(reader, false)], seen, pending)
  {
  }

  // ---------- the invariant ----------

  ghost predicate Inv(s: State) {
    && BoardOk(s)
    && (forall f <- s.got :: CopiesOk(s.got[f], s.world.board.seen, f in s.logins))
    && (forall f <- s.logins :: f in s.got)
    && AgentOk(s, s.world.board.seen)
  }

  /** The board that the agent is about to send is at least as new as what it has sent. */
  ghost predicate AgentOk(s: State, seen: map<nat, nat>) {
    s.agent.Some? ==>
      && s.agent.value < |s.world.board.threads|
      && (s.agent.value in seen ==> forall f <- s.got :: AgentUpTo(s.got[f], seen, seen[s.agent.value]))
  }

  /** No copy is newer than the board. */
  lemma UpToNow(s: State, f: int)
    requires Inv(s) && f in s.got
    ensures AgentUpTo(s.got[f], s.world.board.seen, Version(s))
  {
  }

  lemma GotKept(s: State, s': State, f: int)
    requires f in s.got && CopiesOk(s.got[f], s.world.board.seen, f in s.logins)
    requires Kept(s.world.board.seen, s'.world.board.seen)
    requires f in s'.got && s'.got[f] == s.got[f] && (f in s'.logins <==> f in s.logins)
    ensures CopiesOk(s'.got[f], s'.world.board.seen, f in s'.logins)
    ensures forall v :: AgentUpTo(s.got[f], s.world.board.seen, v) ==> AgentUpTo(s'.got[f], s'.world.board.seen, v)
  {
    CopiesKept(s.got[f], s.world.board.seen, s'.world.board.seen, f in s.logins);
  }

  /** A step on the board, of the archiver or a thread. */
  lemma BoardInv(s: State, e: Event, s': State)
    requires Inv(s) && Enabled(s, e) && s' == Next(s, e) && e.OnBoard?
    ensures Inv(s')
  {
    ViewStep(s, e, s');
    forall f <- s.got
      ensures CopiesOk(s'.got[f], s'.world.board.seen, f in s'.logins)
      ensures AgentUpTo(s'.got[f], s'.world.board.seen, Version(s))
      ensures forall v :: AgentUpTo(s.got[f], s.world.board.seen, v) ==> AgentUpTo(s'.got[f], s'.world.board.seen, v)
    {
      UpToNow(s, f);
      GotKept(s, s', f);
    }
  }

  lemma ServerInv(s: State, e: Event, s': State)
    requires Inv(s) && Enabled(s, e) && s' == Next(s, e) && e.OnServer?
    ensures Inv(s')
  {
    ViewStep(s, e, s');
    assert s'.world.board.seen == s.world.board.seen;
    forall f <- s'.got ensures CopiesOk(s'.got[f], s'.world.board.seen, f in s'.logins) {
      if f in s.got && !(e.event.Enter? && f == e.event.sfd) { GotKept(s, s', f); }
    }
  }

  lemma LoginInv(s: State, e: Event, s': State)
    requires Inv(s) && Enabled(s, e) && s' == Next(s, e) && e.LoginSends?
    ensures Inv(s')
  {
    LoginCopy(s.got[e.sfd], s.world.board.seen, s.logins[e.sfd]);
  }

  lemma AgentInv(s: State, e: Event, s': State)
    requires Inv(s) && Enabled(s, e) && s' == Next(s, e) && (e.AgentReads? || e.AgentSends?)
    ensures Inv(s')
  {
    ViewStep(s, e, s');
    assert s'.world.board.seen == s.world.board.seen;
    if e.AgentSends? {
      forall f <- s.got ensures CopiesOk(s'.got[f], s'.world.board.seen, f in s'.logins) {
        AgentCopy(s.got[f], s.world.board.seen, s.agent.value, f in s.logins);
      }
    }
  }

  lemma InvStep(s: State, e: Event, s': State)
    requires Inv(s) && Enabled(s, e) && s' == Next(s, e)
    ensures Inv(s')
  {
    match e {
      case OnServer(_) => ServerInv(s, e, s');
      case OnBoard(_) => BoardInv(s, e, s');
      case LoginSends(_) => LoginInv(s, e, s');
      case _ => AgentInv(s, e, s');
    }
  }

  lemma {:induction false} InvRun(states: seq<State>, events: seq<Event>, n: nat, s: State)
    requires Run(states, events) && n <= |events| && s == states[n]
    ensures Inv(s)
  {
    if n > 0 {
      InvRun(states, events, n - 1, states[n - 1]);
      assert StepAt(states, events, n - 1);
      InvStep(states[n - 1], events[n - 1], s);
    }
  }

  // ---------- which copy is newer ----------

  function Seen(s: State): map<nat, nat> { s.world.board.seen }

  lemma ViewNext(states: seq<State>, events: seq<Event>, n: nat)
    requires Run(states, events) && n < |events|
    ensures Version(states[n + 1]) == Version(states[n]) + if Writes(states[n], events[n]) then 1 else 0
    ensures states[n].world.board.texts <= states[n + 1].world.board.texts
    ensures forall i <- Seen(states[n + 1]) ::
      || (i in Seen(states[n]) && Seen(states[n + 1])[i] == Seen(states[n])[i])
      || (Reads(states[n], events[n], i) && Seen(states[n + 1])[i] == Version(states[n]))
  {
    InvRun(states, events, n, states[n]);
    assert StepAt(states, events, n);
    ViewStep(states[n], events[n], states[n + 1]);
  }

  ghost predicate Untouched(states: seq<State>, events: seq<Event>, u: nat, w: nat)
    requires |states| == |events| + 1 && w <= |events|
  {
    forall k :: u <= k < w ==> !Writes(states[k], events[k])
  }

  lemma {:induction false} VersionStays(states: seq<State>, events: seq<Event>, u: nat, w: nat)
    requires Run(states, events) && u <= w <= |events|
    ensures Version(states[u]) <= Version(states[w])
    ensures states[u].world.board.texts <= states[w].world.board.texts
    ensures Version(states[u]) == Version(states[w]) <==> Untouched(states, events, u, w)
  {
    if u < w {
      VersionStays(states, events, u, w - 1);
      ViewNext(states, events, w - 1);
    }
  }

  /** What a reader has seen, it has read in some step. */
  lemma {:induction false} SeenAt(states: seq<State>, events: seq<Event>, n: nat, i: nat) returns (r: nat)
    requires Run(states, events) && n <= |events| && i in Seen(states[n])
    ensures r < n && Reads(states[r], events[r], i) && Version(states[r]) == Seen(states[n])[i]
  {
    if n == 0 {
      assert false;
    } else {
      ViewNext(states, events, n - 1);
      if i in Seen(states[n - 1]) && Seen(states[n - 1])[i] == Seen(states[n])[i] {
        r := SeenAt(states, events, n - 1, i);
      } else {
        r := n - 1;
      }
    }
  }

  /** What a client was sent as this copy. */
  function TextOf(s: State, copy: Copy): seq<Byte>
    requires copy.reader in Seen(s) && Seen(s)[copy.reader] < |s.world.board.texts|
  {
    s.world.board.texts[Seen(s)[copy.reader]]
  }

  lemma SeenText(states: seq<State>, events: seq<Event>, n: nat, i: nat, r: nat)
    requires Run(states, events) && r <= n <= |events| && i in Seen(states[n])
    requires Version(states[r]) == Seen(states[n])[i]
    ensures Seen(states[n])[i] < |states[n].world.board.texts|
    ensures states[n].world.board.texts[Seen(states[n])[i]] == CString(states[r].world.board.board)
  {
    InvRun(states, events, r, states[r]);
    VersionStays(states, events, r, n);
  }

  /** Of two boards a client was sent, the second is the older one exactly if it was read before the
      first and the board was written between the two readings; then one of them, and only one, is
      the copy of its login. */
  lemma StaleIff(states: seq<State>, events: seq<Event>, n: nat, f: int, p: nat, q: nat) returns (a: nat, b: nat)
    requires Run(states, events) && n <= |events| && f in states[n].got && p < q < |states[n].got[f]|
    ensures
      var first, second := states[n].got[f][p], states[n].got[f][q];
      var seen := Seen(states[n]);
      && a < n && Reads(states[a], events[a], first.reader)
      && b < n && Reads(states[b], events[b], second.reader)
      && first.reader in seen && second.reader in seen
      && states[n].world.board.texts != []
      && seen[first.reader] < |states[n].world.board.texts| && seen[second.reader] < |states[n].world.board.texts|
      && TextOf(states[n], first) == CString(states[a].world.board.board)
      && TextOf(states[n], second) == CString(states[b].world.board.board)
      && (seen[second.reader] < seen[first.reader] <==> b < a && !Untouched(states, events, b, a))
      && (seen[second.reader] < seen[first.reader] ==> first.login != second.login)
  {
    InvRun(states, events, n, states[n]);
    var first, second := states[n].got[f][p], states[n].got[f][q];
    assert CopiesOk(states[n].got[f], Seen(states[n]), f in states[n].logins);
    a := SeenAt(states, events, n, first.reader);
    b := SeenAt(states, events, n, second.reader);
    SeenText(states, events, n, first.reader, a);
    SeenText(states, events, n, second.reader, b);
    if b < a { VersionStays(states, events, b, a); } else { VersionStays(states, events, a, b); }
  }

  // ---------- everybody is served ----------

  predicate InList(server: Runs.System, f: int) { f in server.threads && Runs.InList(server.threads[f]) }

  ghost predicate AudienceOk(s: State) {
    && BoardRuns.Inv(s.world)
    && (forall f <- s.got :: InList(s.world.server, f))
    && (forall f <- s.world.server.threads :: Runs.InList(s.world.server.threads[f]) ==> f in s.got)
  }

  lemma ReadingInv(w: BoardRuns.World)
    requires BoardRuns.Inv(w) && !w.server.crashed
    ensures BoardRuns.Inv(Reading(w))
  {
    var e := BoardRuns.OnBoard(Handshake.Spawn(Handshake.ReadLock));
    BoardRuns.InvStep(w, e, BoardRuns.Next(w, e));
  }

  /** Only entering and leaving change who is in the list. */
  lemma InListStep(server: Runs.System, e: Runs.Event, f: int)
    requires Runs.Inv(server) && Runs.Enabled(server, e)
    ensures InList(Runs.Next(server, e), f) <==>
      if f == e.sfd && e.Enter? then true else if f == e.sfd && e.Leave? then false else InList(server, f)
  {
    if f != e.sfd { RunSafety.OthersPhases(server, e, f); }
  }

  lemma AudienceServer(s: State, e: Runs.Event, s': State)
    requires AudienceOk(s) && Enabled(s, OnServer(e)) && s' == Next(s, OnServer(e))
    ensures AudienceOk(s')
  {
    var w := BoardRuns.Next(s.world, BoardRuns.OnServer(e));
    BoardRuns.InvStep(s.world, BoardRuns.OnServer(e), w);
    if e.Enter? { ReadingInv(w); }
    forall f ensures f in s'.got <==> InList(s'.world.server, f) {
      InListStep(s.world.server, e, f);
    }
  }

  lemma AudienceStep(s: State, e: Event, s': State)
    requires Inv(s) && AudienceOk(s) && Enabled(s, e) && s' == Next(s, e)
    ensures AudienceOk(s')
  {
    match e {
      case OnServer(event) => AudienceServer(s, event, s');
      case OnBoard(choice) => BoardRuns.InvStep(s.world, BoardRuns.OnBoard(choice), s'.world);
      case AgentReads => ReadingInv(s.world);
      case _ =>
    }
  }

  /** In every run, those who are sent the broadcasts are the clients in the list. */
  lemma {:induction false} AudienceIsList(states: seq<State>, events: seq<Event>, n: nat, s: State)
    requires Run(states, events) && n <= |events| && s == states[n]
    ensures AudienceOk(s)
    ensures forall f :: f in s.got <==> Listed(s.world.server.list, f)
  {
    if n > 0 {
      AudienceIsList(states, events, n - 1, states[n - 1]);
      InvRun(states, events, n - 1, states[n - 1]);
      assert StepAt(states, events, n - 1);
      AudienceStep(states[n - 1], events[n - 1], s);
    }
    ListedIsAudience(s);
  }

  lemma ListedIsAudience(s: State)
    requires AudienceOk(s)
    ensures forall f :: f in s.got <==> Listed(s.world.server.list, f)
  {
    forall f ensures f in s.got <==> Listed(s.world.server.list, f) {
      if Listed(s.world.server.list, f) {
        var i :| 0 <= i < |s.world.server.list.clients| && s.world.server.list.clients[i].sfd == f;
        assert s.world.server.list.clients[i] in s.world.server.list.clients;
      }
    }
  }

  // ---------- an old board sent last ----------

  lemma Grow(states: seq<State>, events: seq<Event>, e: Event) returns (states': seq<State>, events': seq<Event>)
    requires Run(states, events) && Enabled(states[|events|], e)
    ensures Run(states', events') && events' == events + [e]
    ensures states' == states + [Next(states[|events|], e)]
  {
    states', events' := states + [Next(states[|events|], e)], events + [e];
    forall i: nat | i < |events'| ensures StepAt(states', events', i) {
      if i < |events| { assert StepAt(states, events, i); }
    }
  }

  lemma Reader(states: seq<State>, events: seq<Event>, i: nat) returns (states': seq<State>, events': seq<Event>)
    requires Run(states, events) && !states[|events|].world.server.crashed
    requires i < |states[|events|].world.board.threads| && states[|events|].world.board.threads[i].ReadLock?
    requires states[|events|].world.board.bsem == 1
    ensures Run(states', events')
    ensures
      var s := states[|events|];
      var board := s.world.board.(threads := s.world.board.threads[i := Handshake.Done],
                                  seen := s.world.board.seen[i := Version(s)]);
      states'[|events'|] == s.(world := s.world.(board := board))
  {
    states', events' := states, events;
    states', events' := Grow(states', events', OnBoard(Handshake.Go(i, None)));
    states', events' := Grow(states', events', OnBoard(Handshake.Go(i, None)));
    states', events' := Grow(states', events', OnBoard(Handshake.Go(i, None)));
  }

  /** A step that only concerns the server. */
  lemma Serve(states: seq<State>, events: seq<Event>, s: State, e: Runs.Event, server: Runs.System)
    returns (states': seq<State>, events': seq<Event>)
    requires Run(states, events) && s == states[|events|] && Enabled(s, OnServer(e))
    requires !e.Enter? && !e.Leave? && !e.Finish? && !BoardRuns.Passes(s.world.server, e)
    requires server == Runs.Next(s.world.server, e)
    ensures Run(states', events') && states'[|events'|] == s.(world := s.world.(server := server))
  {
    states', events' := Grow(states, events, OnServer(e));
  }

  function Board(b: seq<Byte>, threads: seq<Handshake.Thread>, texts: seq<seq<Byte>>, seen: map<nat, nat>)
    : Handshake.State
  {
    Handshake.State(1, 1, b, Handshake.Await, threads, 0, 0, [], [], texts, [], seen)
  }

  const DOCENT_GOT := [Copy(0, true)]

  const DOCENT_ALONE := Runs.System(
    ListState([BoardSafety.D], Some(BoardSafety.D), Some(BoardSafety.D)), 1, map[4 := Runs.Serving], false)

  function WithStudent(phase: Runs.Phase): Runs.System {
    DOCENT_ALONE.(counter := 2, threads := map[4 := Runs.Serving, 5 := phase])
  }

  lemma DocentDecided(b: seq<Byte>) returns (states: seq<State>, events: seq<Event>)
    requires IsBoard(b)
    ensures Run(states, events)
    ensures
      var server := Runs.START.(counter := 1, threads := map[4 := Runs.Entering(BoardSafety.D)]);
      states[|events|] == State(BoardRuns.World(server, Board(b, [], [CString(b)], map[]), map[]), map[], None, map[])
  {
    states := [State(BoardRuns.World(Runs.START, Board(b, [], [CString(b)], map[]), map[]), map[], None, map[])];
    events := [];
    var s1 := Runs.Next(Runs.START, Runs.Connect(4, DOCENT, []));
    states, events := Serve(states, events, states[0], Runs.Connect(4, DOCENT, []), s1);
    states, events := Serve(states, events, states[|events|], Runs.Decide(4), Runs.Next(s1, Runs.Decide(4)));
  }

  lemma DocentIn(b: seq<Byte>) returns (states: seq<State>, events: seq<Event>)
    requires IsBoard(b)
    ensures Run(states, events)
    ensures states[|events|] == State(
      BoardRuns.World(DOCENT_ALONE, Board(b, [Handshake.ReadLock], [CString(b)], map[]), map[]),
      map[4 := 0], None, map[4 := []])
  {
    states, events := DocentDecided(b);
    states, events := Grow(states, events, OnServer(Runs.Enter(4)));
  }

  lemma FirstCopy(got: map<int, seq<Copy>>, f: int, copy: Copy)
    requires f in got && got[f] == []
    ensures More(got, f, copy) == got[f := [copy]]
  {
    assert got[f] + [copy] == [copy];
  }

  lemma DocentServed(b: seq<Byte>) returns (states: seq<State>, events: seq<Event>)
    requires IsBoard(b)
    ensures Run(states, events)
    ensures states[|events|] == State(
      BoardRuns.World(DOCENT_ALONE, Board(b, [Handshake.Done], [CString(b)], map[0 := 0]), map[]),
      map[], None, map[4 := DOCENT_GOT])
  {
    states, events := DocentIn(b);
    states, events := Reader(states, events, 0);
    FirstCopy(states[|events|].got, 4, Copy(0, true));
    states, events := Grow(states, events, LoginSends(4));
    assert map[4 := 0] - {4} == map[];
  }

  lemma StudentDecides()
    ensures
      var asked := Runs.Deciding(2, STUDENT, []);
      && Runs.Next(DOCENT_ALONE, Runs.Connect(5, STUDENT, [])) == WithStudent(asked)
      && Runs.Next(WithStudent(asked), Runs.Decide(5)) == WithStudent(Runs.Entering(BoardSafety.T))
  {
  }

  lemma StudentDecided(b: seq<Byte>) returns (states: seq<State>, events: seq<Event>)
    requires IsBoard(b)
    ensures Run(states, events)
    ensures states[|events|] == State(
      BoardRuns.World(WithStudent(Runs.Entering(BoardSafety.T)),
                      Board(b, [Handshake.Done], [CString(b)], map[0 := 0]), map[]),
      map[], None, map[4 := DOCENT_GOT])
  {
    states, events := DocentServed(b);
    StudentDecides();
    var asked := WithStudent(Runs.Deciding(2, STUDENT, []));
    states, events := Serve(states, events, states[|events|], Runs.Connect(5, STUDENT, []), asked);
    states, events := Serve(states, events, states[|events|], Runs.Decide(5),
                            WithStudent(Runs.Entering(BoardSafety.T)));
  }

  /** A student is added to the list. */
  lemma StudentIn(b: seq<Byte>) returns (states: seq<State>, events: seq<Event>)
    requires IsBoard(b)
    ensures Run(states, events)
    ensures states[|events|] == State(
      BoardRuns.World(BoardSafety.Pair(BoardSafety.D, Runs.Serving, Runs.Serving),
                      Board(b, [Handshake.Done, Handshake.ReadLock], [CString(b)], map[0 := 0]), map[]),
      map[5 := 1], None, map[4 := DOCENT_GOT, 5 := []])
  {
    states, events := StudentDecided(b);
    states, events := Grow(states, events, OnServer(Runs.Enter(5)));
  }

  /** Its login reads the board. */
  lemma StudentReads(b: seq<Byte>) returns (states: seq<State>, events: seq<Event>)
    requires IsBoard(b)
    ensures Run(states, events)
    ensures states[|events|] == State(
      BoardRuns.World(BoardSafety.Pair(BoardSafety.D, Runs.Serving, Runs.Serving),
                      Board(b, [Handshake.Done, Handshake.Done], [CString(b)], map[0 := 0, 1 := 0]), map[]),
      map[5 := 1], None, map[4 := DOCENT_GOT, 5 := []])
  {
    states, events := StudentIn(b);
    states, events := Reader(states, events, 1);
  }

  lemma DocentChecked(b: seq<Byte>) returns (states: seq<State>, events: seq<Event>)
    requires IsBoard(b)
    ensures Run(states, events)
    ensures states[|events|] == State(
      BoardRuns.World(BoardSafety.Pair(BoardSafety.D, Runs.Writing(false), Runs.Serving),
                      Board(b, [Handshake.Done, Handshake.Done, Handshake.UpdateLock], [CString(b)],
                            map[0 := 0, 1 := 0]), map[4 := 2]),
      map[5 := 1], None, map[4 := DOCENT_GOT, 5 := []])
  {
    states, events := StudentReads(b);
    var s := states[|events|];
    states, events := Serve(states, events, s, Runs.FirstLook(4, false),
                            Runs.Next(s.world.server, Runs.FirstLook(4, false)));
    states, events := Grow(states, events, OnServer(Runs.SecondLook(4)));
  }

  lemma DocentErased(b: seq<Byte>) returns (states: seq<State>, events: seq<Event>)
    requires IsBoard(b)
    ensures Run(states, events)
    ensures states[|events|] == State(
      BoardRuns.World(BoardSafety.Pair(BoardSafety.D, Runs.Writing(false), Runs.Serving),
                      Board(BLANK, [Handshake.Done, Handshake.Done, Handshake.UpdateCopy], [CString(b), CString(BLANK)],
                            map[0 := 0, 1 := 0]).(bsem := 0), map[4 := 2]),
      map[5 := 1], None, map[4 := DOCENT_GOT, 5 := []])
  {
    states, events := DocentChecked(b);
    states, events := Grow(states, events, OnBoard(Handshake.Go(2, None)));
    states, events := Grow(states, events, OnBoard(Handshake.Go(2, None)));
  }

  function ThreeTexts(b: seq<Byte>, update: seq<Byte>): seq<seq<Byte>> {
    [CString(b), CString(BLANK), CString(Stored(update))]
  }

  lemma DocentWrote(b: seq<Byte>, update: seq<Byte>) returns (states: seq<State>, events: seq<Event>)
    requires IsBoard(b)
    ensures Run(states, events)
    ensures states[|events|] == State(
      BoardRuns.World(BoardSafety.Pair(BoardSafety.D, Runs.Writing(false), Runs.Serving),
                      Board(Stored(update), [Handshake.Done, Handshake.Done, Handshake.Done], ThreeTexts(b, update),
                            map[0 := 0, 1 := 0]), map[4 := 2]),
      map[5 := 1], None, map[4 := DOCENT_GOT, 5 := []])
  {
    states, events := DocentErased(b);
    states, events := Grow(states, events, OnBoard(Handshake.Go(2, Some(update))));
    states, events := Grow(states, events, OnBoard(Handshake.Go(2, None)));
  }

  lemma DocentDone(b: seq<Byte>, update: seq<Byte>) returns (states: seq<State>, events: seq<Event>)
    requires IsBoard(b)
    ensures Run(states, events)
    ensures states[|events|] == State(
      BoardRuns.World(BoardSafety.Pair(BoardSafety.D, Runs.Serving, Runs.Serving),
                      Board(Stored(update), [Handshake.Done, Handshake.Done, Handshake.Done], ThreeTexts(b, update),
                            map[0 := 0, 1 := 0]), map[]),
      map[5 := 1], None, map[4 := DOCENT_GOT, 5 := []])
  {
    states, events := DocentWrote(b, update);
    states, events := Grow(states, events, OnServer(Runs.Finish(4, false)));
    assert map[4 := 2] - {4} == map[];
  }

  /** The agent reads the docent's update. */
  lemma UpdateRead(b: seq<Byte>, update: seq<Byte>) returns (states: seq<State>, events: seq<Event>)
    requires IsBoard(b)
    ensures Run(states, events)
    ensures states[|events|] == State(
      BoardRuns.World(BoardSafety.Pair(BoardSafety.D, Runs.Serving, Runs.Serving),
                      Board(Stored(update), [Handshake.Done, Handshake.Done, Handshake.Done, Handshake.Done],
                            ThreeTexts(b, update), map[0 := 0, 1 := 0, 3 := 2]), map[]),
      map[5 := 1], Some(3), map[4 := DOCENT_GOT, 5 := []])
  {
    states, events := DocentDone(b, update);
    states, events := Grow(states, events, AgentReads);
    states, events := Reader(states, events, 3);
  }

  lemma ToTheStudent(s: State)
    requires s.world.server == BoardSafety.Pair(BoardSafety.D, Runs.Serving, Runs.Serving)
    requires s.got == map[4 := DOCENT_GOT, 5 := []]
    ensures Broadcasted(s, 3, true) == map[4 := DOCENT_GOT, 5 := [Copy(3, false)]]
  {
    var all, none: seq<Copy> := Broadcasted(s, 3, true), [];
    assert all[5] == none + [Copy(3, false)] == [Copy(3, false)];
    assert all[4] == DOCENT_GOT;
  }

  /** The agent sends it to the student. */
  lemma UpdateSent(b: seq<Byte>, update: seq<Byte>) returns (states: seq<State>, events: seq<Event>)
    requires IsBoard(b)
    ensures Run(states, events)
    ensures states[|events|] == State(
      BoardRuns.World(BoardSafety.Pair(BoardSafety.D, Runs.Serving, Runs.Serving),
                      Board(Stored(update), [Handshake.Done, Handshake.Done, Handshake.Done, Handshake.Done],
                            ThreeTexts(b, update), map[0 := 0, 1 := 0, 3 := 2]), map[]),
      map[5 := 1], None, map[4 := DOCENT_GOT, 5 := [Copy(3, false)]])
  {
    states, events := UpdateRead(b, update);
    ToTheStudent(states[|events|]);
    states, events := Grow(states, events, AgentSends(true));
  }

  /** A login has read the board when an update is stored and broadcast, and sends what it has read
      only then: the client is left with the old board, and nothing is on its way to it. */
  lemma OldBoardLast(b: seq<Byte>, update: seq<Byte>) returns (states: seq<State>, events: seq<Event>)
    requires IsBoard(b)
    ensures Run(states, events)
    ensures
      var s := states[|events|];
      && s.agent == None && s.logins == map[] && s.world.board.board == Stored(update)
      && 5 in s.got && s.got[5] == [Copy(3, false), Copy(1, true)]
      && 3 in Seen(s) && Seen(s)[3] == 2 && 1 in Seen(s) && Seen(s)[1] == 0
      && |s.world.board.texts| == 3
      && TextOf(s, Copy(3, false)) == CString(Stored(update)) && TextOf(s, Copy(1, true)) == CString(b)
  {
    states, events := UpdateSent(b, update);
    states, events := Grow(states, events, LoginSends(5));
    assert map[5 := 1] - {5} == map[];
  }
}
