/**
 The client threads of Runs and the board of Handshake together: a thread that passes
 board_handler's check goes through the semaphores while others move the write permission.
 */
module BoardRuns {
  import opened Permissions
  import Runs
  import RunSafety
  import Handshake
  import ArchiveText

  /** `jobs` tells which thread of the handshake a client thread in board_handler is. The readers of
      the board come and go as they like. */
  datatype World = World(server: Runs.System, board: Handshake.State, jobs: map<int, nat>)

  datatype Event =
    | OnServer(event: Runs.Event)
    | OnBoard(choice: Handshake.Choice)

  predicate Initial(w: World) {
    w.server == Runs.START && Handshake.Initial(w.board) && w.jobs == map[]
  }

  /** A thread is let into board_handler. */
  predicate Passes(s: Runs.System, e: Runs.Event) {
    e.SecondLook? && HasWriteAccess(s.list, e.sfd)
  }

  /** A thread is in the part of board_handler that deals with archiver and board. */
  predicate Inside(w: World, sfd: int) {
    sfd in w.jobs && w.jobs[sfd] < |w.board.threads| && ArchiveText.Handling(w.board.threads[w.jobs[sfd]])
  }

  predicate Enabled(w: World, e: Event) {
    match e
    case OnServer(event) => Runs.Enabled(w.server, event) && (event.Finish? ==> !Inside(w, event.sfd))
    case OnBoard(choice) =>
      !w.server.crashed && Handshake.Enabled(w.board, choice) && (choice.Spawn? ==> choice.thread.ReadLock?)
  }

  function Handler(clear: bool): Handshake.Thread {
    if clear then Handshake.ClearFire else Handshake.UpdateLock
  }

  function OnServerNext(w: World, e: Runs.Event): World
    requires Runs.Enabled(w.server, e)
  {
    var server := Runs.Next(w.server, e);
    if Passes(w.server, e) then
      var handler := Handler(w.server.threads[e.sfd].clear);
      World(server, Handshake.Next(w.board, Handshake.Spawn(handler)), w.jobs[e.sfd := |w.board.threads|])
    else
      World(server, w.board, if e.Finish? then w.jobs - {e.sfd} else w.jobs)
  }

  function Next(w: World, e: Event): World
    requires Enabled(w, e)
  {
    match e
    case OnServer(event) => OnServerNext(w, event)
    case OnBoard(choice) => w.(board := Handshake.Next(w.board, choice))
  }

  ghost predicate StepAt(worlds: seq<World>, events: seq<Event>, i: nat)
    requires |worlds| == |events| + 1 && i < |events|
  {
    Enabled(worlds[i], events[i]) && worlds[i + 1] == Next(worlds[i], events[i])
  }

  ghost predicate Run(worlds: seq<World>, events: seq<Event>) {
    && |worlds| == |events| + 1
    && Initial(worlds[0])
    && forall i: nat :: i < |events| ==> StepAt(worlds, events, i)
  }

  // ---------- invariants ----------

  /** The threads in board_handler are those with a job, each has its own, and only they handle. */
  ghost predicate JobsOk(w: World) {
    && (forall f <- w.jobs :: f in w.server.threads && w.server.threads[f].Writing? && w.jobs[f] < |w.board.threads|)
    && (forall f <- w.server.threads :: w.server.threads[f].Writing? ==> f in w.jobs)
    && (forall f <- w.jobs, g <- w.jobs :: w.jobs[f] == w.jobs[g] ==> f == g)
    && (forall i :: 0 <= i < |w.board.threads| && ArchiveText.Handling(w.board.threads[i]) ==>
          exists f :: f in w.jobs && w.jobs[f] == i)
  }

  ghost predicate Inv(w: World) {
    Runs.Inv(w.server) && Handshake.Inv(w.board) && JobsOk(w)
  }

  lemma PassJobs(w: World, e: Runs.Event, w': World)
    requires JobsOk(w) && Runs.Enabled(w.server, e) && Passes(w.server, e) && w' == OnServerNext(w, e)
    ensures JobsOk(w')
  {
    var f := e.sfd;
    assert f !in w.jobs;
    forall i | 0 <= i < |w'.board.threads| && ArchiveText.Handling(w'.board.threads[i])
      ensures exists g :: g in w'.jobs && w'.jobs[g] == i
    {
      if i < |w.board.threads| {
        assert w'.board.threads[i] == w.board.threads[i];
        var g :| g in w.jobs && w.jobs[g] == i;
        assert w'.jobs[g] == i;
      } else {
        assert w'.jobs[f] == i;
      }
    }
  }

  /** A step of a thread that neither enters nor leaves board_handler. */
  lemma OtherJobs(w: World, e: Runs.Event, w': World)
    requires JobsOk(w) && Runs.Enabled(w.server, e) && !Passes(w.server, e) && !e.Finish?
    requires w' == OnServerNext(w, e)
    ensures JobsOk(w')
  {
    assert e.sfd !in w.jobs;
    forall f | f in w.jobs ensures f in w'.server.threads && w'.server.threads[f] == w.server.threads[f] {
      RunSafety.OthersPhases(w.server, e, f);
    }
    forall f | f in w'.server.threads && w'.server.threads[f].Writing? ensures f in w.jobs {
      if f != e.sfd { RunSafety.OthersPhases(w.server, e, f); }
    }
  }

  lemma FinishJobs(w: World, e: Runs.Event, w': World)
    requires JobsOk(w) && Runs.Enabled(w.server, e) && e.Finish? && !Inside(w, e.sfd)
    requires w' == OnServerNext(w, e)
    ensures JobsOk(w')
  {
    forall i | 0 <= i < |w.board.threads| && ArchiveText.Handling(w.board.threads[i])
      ensures exists g :: g in w'.jobs && w'.jobs[g] == i
    {
      var g :| g in w.jobs && w.jobs[g] == i;
      assert g != e.sfd && w'.jobs[g] == i;
    }
  }

  /** A step on the board starts no handler. */
  lemma BoardThreads(s: Handshake.State, c: Handshake.Choice, s': Handshake.State)
    requires Handshake.Enabled(s, c) && s' == Handshake.Next(s, c) && (c.Spawn? ==> c.thread.ReadLock?)
    ensures |s.threads| <= |s'.threads|
    ensures forall i :: 0 <= i < |s'.threads| && ArchiveText.Handling(s'.threads[i]) ==>
              i < |s.threads| && ArchiveText.Handling(s.threads[i])
  {
  }

  lemma BoardJobs(w: World, c: Handshake.Choice, w': World)
    requires JobsOk(w) && Enabled(w, OnBoard(c)) && w' == Next(w, OnBoard(c))
    ensures JobsOk(w')
  {
    BoardThreads(w.board, c, w'.board);
  }

  lemma JobsStep(w: World, e: Event, w': World)
    requires JobsOk(w) && Enabled(w, e) && w' == Next(w, e)
    ensures JobsOk(w')
  {
    match e {
      case OnBoard(choice) => BoardJobs(w, choice, w');
      case OnServer(event) =>
        if Passes(w.server, event) {
          PassJobs(w, event, w');
        } else if event.Finish? {
          FinishJobs(w, event, w');
        } else {
          OtherJobs(w, event, w');
        }
    }
  }

  lemma BoardInv(w: World, e: Event, w': World)
    requires Handshake.Inv(w.board) && Enabled(w, e) && w' == Next(w, e)
    ensures Handshake.Inv(w'.board)
  {
    match e {
      case OnBoard(choice) => Handshake.InvStep(w.board, choice);
      case OnServer(event) =>
        if Passes(w.server, event) {
          Handshake.InvStep(w.board, Handshake.Spawn(Handler(w.server.threads[event.sfd].clear)));
        }
    }
  }

  /** Every step of the whole keeps the invariants of both parts and of their connection. */
  lemma InvStep(w: World, e: Event, w': World)
    requires Inv(w) && Enabled(w, e) && w' == Next(w, e)
    ensures Inv(w')
  {
    JobsStep(w, e, w');
    BoardInv(w, e, w');
    if e.OnServer? { Runs.InvStep(w.server, e.event); }
  }

  lemma {:induction false} InvRun(worlds: seq<World>, events: seq<Event>, n: nat, w: World)
    requires Run(worlds, events) && n <= |events| && w == worlds[n]
    ensures Inv(w)
  {
    if n > 0 {
      InvRun(worlds, events, n - 1, worlds[n - 1]);
      assert StepAt(worlds, events, n - 1);
      InvStep(worlds[n - 1], events[n - 1], w);
    }
  }
}
