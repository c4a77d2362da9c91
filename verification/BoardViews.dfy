/**
 Which boards the clients are sent: the copy that login_handler (src/server/message_handler.c) sends
 a new client, and those of the broadcasting agent (src/server/broadcasting.c). Both read the board
 under its semaphore and send it later, so the order of sending need not be that of reading.
 */
module BoardViews {
  import opened Commons
  import opened Permissions
  import Runs
  import Handshake
  import ArchiveText
  import BoardRuns

  /** A board sent to a client, named by the thread of the handshake that read it. */
  datatype Copy = Copy(reader: nat, login: bool)

  /** `logins` are the readers of logins that have not sent their board yet, `agent` is the reader of
      the broadcast going on, and `got` are the boards each listed client was sent, in order. */
  datatype State = State(
    world: BoardRuns.World, logins: map<int, nat>, agent: Option<nat>, got: map<int, seq<Copy>>)

  datatype Event =
    | OnServer(event: Runs.Event)
    | OnBoard(choice: Handshake.Choice)
    | LoginSends(sfd: int)
    | AgentReads
    | AgentSends(exclW: bool)

  predicate Initial(s: State) {
    BoardRuns.Initial(s.world) && s.logins == map[] && s.agent == None && s.got == map[]
  }

  predicate Finished(w: BoardRuns.World, reader: nat) {
    reader in w.board.seen && reader < |w.board.threads| && w.board.threads[reader].Done?
  }

  /** A client's thread does nothing else before its login has sent the board. */
  predicate Enabled(s: State, e: Event) {
    match e
    case OnServer(event) => BoardRuns.Enabled(s.world, BoardRuns.OnServer(event)) && event.sfd !in s.logins
    case OnBoard(choice) => BoardRuns.Enabled(s.world, BoardRuns.OnBoard(choice)) && !choice.Spawn?
    case LoginSends(sfd) => !s.world.server.crashed && sfd in s.logins && Finished(s.world, s.logins[sfd])
    case AgentReads => !s.world.server.crashed && s.agent.None?
    case AgentSends(_) => !s.world.server.crashed && s.agent.Some? && Finished(s.world, s.agent.value)
  }

  /** A thread is about to lock the board to read it. */
  function Reading(w: BoardRuns.World): BoardRuns.World {
    w.(board := Handshake.Next(w.board, Handshake.Spawn(Handshake.ReadLock)))
  }

  function More(got: map<int, seq<Copy>>, sfd: int, copy: Copy): map<int, seq<Copy>> {
    got[sfd := (if sfd in got then got[sfd] else []) + [copy]]
  }

  /** The broadcast goes to everybody, or to everybody but the writer. */
  function Broadcasted(s: State, reader: nat, exclW: bool): map<int, seq<Copy>> {
    map f | f in s.got ::
      if exclW && HasWriteAccess(s.world.server.list, f) then s.got[f] else s.got[f] + [Copy(reader, false)]
  }

  function OnServerNext(s: State, e: Runs.Event): State
    requires Enabled(s, OnServer(e))
  {
    var world := BoardRuns.Next(s.world, BoardRuns.OnServer(e));
    if e.Enter? then
      State(Reading(world), s.logins[e.sfd := |world.board.threads|], s.agent, s.got[e.sfd := []])
    else
      s.(world := world, got := if e.Leave? then s.got - {e.sfd} else s.got)
  }

  function Next(s: State, e: Event): State
    requires Enabled(s, e)
  {
    match e
    case OnServer(event) => OnServerNext(s, event)
    case OnBoard(choice) => s.(world := BoardRuns.Next(s.world, BoardRuns.OnBoard(choice)))
    case LoginSends(sfd) =>
      s.(logins := s.logins - {sfd}, got := More(s.got, sfd, Copy(s.logins[sfd], true)))
    case AgentReads => s.(world := Reading(s.world), agent := Some(|s.world.board.threads|))
    case AgentSends(exclW) => s.(agent := None, got := Broadcasted(s, s.agent.value, exclW))
  }

  ghost predicate StepAt(states: seq<State>, events: seq<Event>, i: nat)
    requires |states| == |events| + 1 && i < |events|
  {
    Enabled(states[i], events[i]) && states[i + 1] == Next(states[i], events[i])
  }

  ghost predicate Run(states: seq<State>, events: seq<Event>) {
    && |states| == |events| + 1
    && Initial(states[0])
    && forall i: nat :: i < |events| ==> StepAt(states, events, i)
  }

  // ---------- what was read ----------

  predicate HasRead(t: Handshake.Thread) { t.ReadUnlock? || t.Done? }

  /** Readers that have read are past it, and no version they have is from the future. */
  ghost predicate SeenOk(b: Handshake.State) {
    forall i <- b.seen :: i < |b.threads| && HasRead(b.threads[i]) && b.seen[i] <= Handshake.Version(b)
  }

  predicate ReadsBoard(b: Handshake.State, c: Handshake.Choice, reader: nat) {
    c.Go? && c.i == reader && reader < |b.threads| && b.threads[reader].ReadBoard?
  }

  lemma SeenStep(b: Handshake.State, c: Handshake.Choice, b': Handshake.State)
    requires SeenOk(b) && ArchiveText.HistoryOk(b) && Handshake.Enabled(b, c) && b' == Handshake.Next(b, c)
    ensures SeenOk(b') && ArchiveText.HistoryOk(b') && |b.threads| <= |b'.threads|
    ensures Kept(b.seen, b'.seen)
    ensures forall i <- b'.seen :: i in b.seen || (ReadsBoard(b, c, i) && b'.seen[i] == Handshake.Version(b))
    ensures Handshake.Version(b') == Handshake.Version(b) + if ArchiveText.Writes(b, c) then 1 else 0
    ensures b.texts <= b'.texts
  {
    ArchiveText.HistoryStep(b, c);
    if c.Go? {
      SeenGo(b, c, b');
    }
  }

  predicate Kept(seen: map<nat, nat>, seen': map<nat, nat>) {
    forall i <- seen :: i in seen' && seen'[i] == seen[i]
  }

  lemma SeenGo(b: Handshake.State, c: Handshake.Choice, b': Handshake.State)
    requires SeenOk(b) && c.Go? && Handshake.Enabled(b, c) && b' == Handshake.Next(b, c)
    requires Handshake.Version(b) <= Handshake.Version(b')
    ensures SeenOk(b') && Kept(b.seen, b'.seen) && |b.threads| == |b'.threads|
    ensures forall i <- b'.seen :: i in b.seen || (ReadsBoard(b, c, i) && b'.seen[i] == Handshake.Version(b))
  {
  }

  /** The choice of a step on the board, if it has one. */
  function ChoiceOf(s: State, e: Event): Option<Handshake.Choice>
    requires Enabled(s, e)
  {
    match e
    case OnServer(event) =>
      if event.Enter? then Some(Handshake.Spawn(Handshake.ReadLock))
      else if BoardRuns.Passes(s.world.server, event) then
        Some(Handshake.Spawn(BoardRuns.Handler(s.world.server.threads[event.sfd].clear)))
      else None
    case OnBoard(choice) => Some(choice)
    case AgentReads => Some(Handshake.Spawn(Handshake.ReadLock))
    case _ => None
  }

  lemma BoardStep(s: State, e: Event, s': State)
    requires Enabled(s, e) && s' == Next(s, e)
    ensures ChoiceOf(s, e).None? ==> s'.world.board == s.world.board
    ensures ChoiceOf(s, e).Some? ==>
      && Handshake.Enabled(s.world.board, ChoiceOf(s, e).value)
      && s'.world.board == Handshake.Next(s.world.board, ChoiceOf(s, e).value)
  {
  }

  function Version(s: State): nat { Handshake.Version(s.world.board) }

  predicate Reads(s: State, e: Event, reader: nat) {
    e.OnBoard? && ReadsBoard(s.world.board, e.choice, reader)
  }

  predicate Writes(s: State, e: Event) {
    e.OnBoard? && ArchiveText.Writes(s.world.board, e.choice)
  }

  ghost predicate BoardOk(s: State) {
    SeenOk(s.world.board) && ArchiveText.HistoryOk(s.world.board)
  }

  lemma ViewStep(s: State, e: Event, s': State)
    requires BoardOk(s) && Enabled(s, e) && s' == Next(s, e)
    ensures BoardOk(s') && |s.world.board.threads| <= |s'.world.board.threads|
    ensures Kept(s.world.board.seen, s'.world.board.seen)
    ensures forall i <- s'.world.board.seen ::
              i in s.world.board.seen || (Reads(s, e, i) && s'.world.board.seen[i] == Version(s))
    ensures Version(s') == Version(s) + if Writes(s, e) then 1 else 0
    ensures s.world.board.texts <= s'.world.board.texts
  {
    BoardStep(s, e, s');
    if ChoiceOf(s, e).Some? {
      SeenStep(s.world.board, ChoiceOf(s, e).value, s'.world.board);
    }
  }
}
