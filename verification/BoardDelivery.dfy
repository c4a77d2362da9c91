/** Exactly which boards each client is sent, over whole runs. */
module BoardDelivery {
  import opened Commons
  import opened Permissions
  import opened Blackboards
  import opened BoardViews
  import opened BoardOrder
  import BoardSafety
  import BoardRuns
  import Broadcasting
  import BroadcastLaws
  import Handshake
  import Protocol
  import Runs
  import Wire

  /** What a step sends to a client in the list. */
  function SentAt(s: State, e: Event, f: int): seq<Copy> {
    match e
    case LoginSends(sfd) => if sfd == f && f in s.logins then [Copy(s.logins[f], true)] else []
    case AgentSends(exclW) =>
      if s.agent.None? || (exclW && HasWriteAccess(s.world.server.list, f)) then [] else [Copy(s.agent.value, false)]
    case _ => []
  }

  /** What the steps from m on and before n send to it, in order. */
  function Sent(states: seq<State>, events: seq<Event>, f: int, m: nat, n: nat): seq<Copy>
    requires |states| == |events| + 1 && n <= |events|
  {
    if n <= m then [] else Sent(states, events, f, m, n - 1) + SentAt(states[n - 1], events[n - 1], f)
  }

  predicate Enters(e: Event, f: int) { e == OnServer(Runs.Enter(f)) }

  predicate Leaves(e: Event, f: int) { e == OnServer(Runs.Leave(f)) }

  lemma GotStep(s: State, e: Event, f: int)
    requires Inv(s) && Enabled(s, e) && f in Next(s, e).got
    ensures Enters(e, f) ==> Next(s, e).got[f] == []
    ensures !Enters(e, f) ==> f in s.got && !Leaves(e, f) && Next(s, e).got[f] == s.got[f] + SentAt(s, e, f)
  {
  }

  lemma GotNext(states: seq<State>, events: seq<Event>, n: nat, f: int, e: Event)
    requires Run(states, events) && n < |events| && e == events[n] && f in states[n + 1].got
    ensures Enters(e, f) ==> states[n + 1].got[f] == []
    ensures !Enters(e, f) ==>
      f in states[n].got && !Leaves(e, f) && states[n + 1].got[f] == states[n].got[f] + SentAt(states[n], e, f)
  {
    InvRun(states, events, n, states[n]);
    assert StepAt(states, events, n);
    GotStep(states[n], e, f);
  }

  /** What a client has been sent is exactly what was sent to it since it entered the list: the board
      of its login, and every broadcast but those that left it out as the writer, in that order of
      sending. */
  lemma {:induction false} GotSince(states: seq<State>, events: seq<Event>, n: nat, f: int) returns (m: nat)
    requires Run(states, events) && n <= |events| && f in states[n].got
    ensures m < n && Enters(events[m], f)
    ensures forall k :: m < k < n ==> !Enters(events[k], f) && !Leaves(events[k], f)
    ensures states[n].got[f] == Sent(states, events, f, m + 1, n)
  {
    if n == 0 {
      assert false;
    } else {
      GotNext(states, events, n - 1, f, events[n - 1]);
      if Enters(events[n - 1], f) {
        m := n - 1;
      } else {
        m := GotSince(states, events, n - 1, f);
      }
    }
  }

  /** The machine sends a broadcast to those to whom the loop over the list does. */
  lemma AsTheLoop(s: State, exclW: bool, text: seq<Byte>, f: int)
    requires AudienceOk(s) && Enabled(s, AgentSends(exclW))
    ensures
      var l := s.world.server.list;
      var sends := Broadcasting.Boards(l.clients, if exclW then l.writer else None, Protocol.Board(text));
      Broadcasting.Copies(sends, f, Wire.Encode(Protocol.Board(text))) ==
      if f in s.got then |SentAt(s, AgentSends(exclW), f)| else 0
  {
    var l := s.world.server.list;
    ListedIsAudience(s);
    BroadcastLaws.BoardLaw(s.world.server, if exclW then l.writer else None, Protocol.Board(text), f);
  }

  // ---------- a writer that was left out ----------

  /** An update is broadcast after the docent has given the right to a student: it is kept from the
      student, and comes back to the docent. The student now writes on the board its login has read,
      and has never been sent the update. */
  lemma NewWriterIsLeftOut(b: seq<Byte>, update: seq<Byte>) returns (states: seq<State>, events: seq<Event>)
    requires IsBoard(b)
    ensures Run(states, events)
    ensures
      var s := states[|events|];
      && s.agent == None && s.logins == map[] && s.world.board.board == Stored(update)
      && HasWriteAccess(s.world.server.list, 5)
      && 5 in s.got && s.got[5] == [Copy(1, true)]
      && 1 in Seen(s) && Seen(s)[1] == 0 && |s.world.board.texts| == 3
      && TextOf(s, Copy(1, true)) == CString(b)
  {
    states, events := UpdateRead(b, update);
    var s := states[|events|];
    BoardSafety.PairFinds(s.world.server.list);
    states, events := Serve(states, events, s, Runs.Reply(4, 1, 2),
                            BoardSafety.Pair(BoardSafety.T, Runs.Serving, Runs.Serving));
    states, events := Echoed(states, events, states[|events|]);
    FirstCopy(states[|events|].got, 5, Copy(1, true));
    states, events := Grow(states, events, LoginSends(5));
    assert map[5 := 1] - {5} == map[];
  }

  lemma Echoed(states: seq<State>, events: seq<Event>, s: State) returns (states': seq<State>, events': seq<Event>)
    requires Run(states, events) && s == states[|events|] && Enabled(s, AgentSends(true)) && s.agent == Some(3)
    requires s.world.server == BoardSafety.Pair(BoardSafety.T, Runs.Serving, Runs.Serving)
    requires s.got == map[4 := DOCENT_GOT, 5 := []]
    ensures Run(states', events')
    ensures states'[|events'|] == s.(agent := None, got := map[4 := DOCENT_GOT + [Copy(3, false)], 5 := []])
  {
    OnlyTheDocent(s);
    states', events' := Grow(states, events, AgentSends(true));
  }

  lemma OnlyTheDocent(s: State)
    requires s.world.server == BoardSafety.Pair(BoardSafety.T, Runs.Serving, Runs.Serving)
    requires s.got == map[4 := DOCENT_GOT, 5 := []]
    ensures Broadcasted(s, 3, true) == map[4 := DOCENT_GOT + [Copy(3, false)], 5 := []]
  {
  }
}
