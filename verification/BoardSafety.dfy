/** Who writes the board in runs of all client threads, and what that means for the archive. */
module BoardSafety {
  import opened Commons
  import opened Permissions
  import opened Blackboards
  import opened BoardRuns
  import Runs
  import RunSafety
  import Handshake
  import ArchiveText

  predicate Access(w: World, sfd: int) { HasWriteAccess(w.server.list, sfd) }

  /** The step moves the write permission (see RunSafety.RightMovesIff). */
  predicate Moves(w: World, e: Event) {
    e.OnServer? && RunSafety.RightMoves(w.server.list, w.server.threads, e.event)
  }

  /** The step gives the board a new text. */
  predicate WritesBoard(w: World, e: Event) {
    e.OnBoard? && ArchiveText.Writes(w.board, e.choice)
  }

  lemma OnlyWritesChange(w: World, e: Event)
    requires Enabled(w, e) && !WritesBoard(w, e)
    ensures Next(w, e).board.board == w.board.board
  {
  }

  // ---------- since the check ----------

  /** The thread passed its check at step m, and since then has had this job. */
  ghost predicate InSince(worlds: seq<World>, events: seq<Event>, m: nat, n: nat, f: int, job: nat)
    requires |worlds| == |events| + 1 && n <= |events|
  {
    && m < n && events[m] == OnServer(Runs.SecondLook(f)) && Access(worlds[m], f)
    && forall k :: m < k <= n ==> HasJob(worlds[k], f, job)
  }

  predicate HasJob(w: World, f: int, job: nat) { f in w.jobs && w.jobs[f] == job }

  lemma JobStep(w: World, e: Event, f: int, job: nat)
    requires Inv(w) && Enabled(w, e) && HasJob(Next(w, e), f, job)
    ensures HasJob(w, f, job) || (e == OnServer(Runs.SecondLook(f)) && Access(w, f))
  {
  }

  lemma {:induction false} EnteredAt(worlds: seq<World>, events: seq<Event>, n: nat, f: int, job: nat) returns (m: nat)
    requires Run(worlds, events) && n <= |events| && HasJob(worlds[n], f, job)
    ensures InSince(worlds, events, m, n, f, job)
  {
    if n == 0 {
      assert false;
    } else {
      InvRun(worlds, events, n - 1, worlds[n - 1]);
      assert StepAt(worlds, events, n - 1);
      JobStep(worlds[n - 1], events[n - 1], f, job);
      if HasJob(worlds[n - 1], f, job) {
        m := EnteredAt(worlds, events, n - 1, f, job);
      } else {
        m := n - 1;
      }
    }
  }

  // ---------- the right between the check and the write ----------

  ghost predicate NoMove(worlds: seq<World>, events: seq<Event>, i: nat, n: nat)
    requires |worlds| == |events| + 1 && n <= |events|
  {
    forall j :: i <= j < n ==> !Moves(worlds[j], events[j])
  }

  lemma WriterStep(w: World, e: Event)
    requires Inv(w) && Enabled(w, e)
    ensures Next(w, e).server.list.writer != w.server.list.writer <==> Moves(w, e)
  {
    if e.OnServer? { RunSafety.RightMovesIff(w.server, e.event); }
  }

  lemma WriterAt(worlds: seq<World>, events: seq<Event>, i: nat)
    requires Run(worlds, events) && i < |events|
    ensures worlds[i + 1].server.list.writer != worlds[i].server.list.writer <==> Moves(worlds[i], events[i])
  {
    InvRun(worlds, events, i, worlds[i]);
    assert StepAt(worlds, events, i);
    WriterStep(worlds[i], events[i]);
  }

  lemma AwayAt(worlds: seq<World>, events: seq<Event>, i: nat, f: int)
    requires Run(worlds, events) && i < |events| && Access(worlds[i], f) && Moves(worlds[i], events[i])
    ensures !Access(worlds[i + 1], f)
  {
    InvRun(worlds, events, i, worlds[i]);
    assert StepAt(worlds, events, i);
    RunSafety.MovesAway(worlds[i].server, events[i].event, f);
  }

  /** Since i the right has not moved, or the last time it did it came to f. */
  ghost predicate LastMoveTo(worlds: seq<World>, events: seq<Event>, i: nat, n: nat, f: int)
    requires |worlds| == |events| + 1 && i <= n <= |events|
  {
    || NoMove(worlds, events, i, n)
    || exists j: nat :: MovedTo(worlds, events, i, j, n, f)
  }

  ghost predicate MovedTo(worlds: seq<World>, events: seq<Event>, i: nat, j: nat, n: nat, f: int)
    requires |worlds| == |events| + 1 && n <= |events|
  {
    i <= j < n && Moves(worlds[j], events[j]) && Access(worlds[j + 1], f) && NoMove(worlds, events, j + 1, n)
  }

  lemma LastMoveNext(worlds: seq<World>, events: seq<Event>, i: nat, n: nat, f: int)
    requires |worlds| == |events| + 1 && i <= n < |events|
    ensures Moves(worlds[n], events[n]) ==>
      (LastMoveTo(worlds, events, i, n + 1, f) <==> Access(worlds[n + 1], f))
    ensures !Moves(worlds[n], events[n]) ==>
      (LastMoveTo(worlds, events, i, n + 1, f) <==> LastMoveTo(worlds, events, i, n, f))
  {
    if Moves(worlds[n], events[n]) {
      assert !NoMove(worlds, events, i, n + 1);
      if Access(worlds[n + 1], f) { assert MovedTo(worlds, events, i, n, n + 1, f); }
    } else {
      var m := n + 1;
      if j: nat :| MovedTo(worlds, events, i, j, n, f) { assert MovedTo(worlds, events, i, j, m, f); }
      if j: nat :| MovedTo(worlds, events, i, j, m, f) { assert MovedTo(worlds, events, i, j, n, f); }
    }
  }

  lemma {:induction false} AccessIff(worlds: seq<World>, events: seq<Event>, i: nat, n: nat, f: int)
    requires Run(worlds, events) && i <= n <= |events| && Access(worlds[i], f)
    ensures Access(worlds[n], f) <==> LastMoveTo(worlds, events, i, n, f)
  {
    if i < n {
      AccessIff(worlds, events, i, n - 1, f);
      WriterAt(worlds, events, n - 1);
      LastMoveNext(worlds, events, i, n - 1, f);
    }
  }

  /** A writer stays the writer throughout exactly while the right does not move. */
  lemma {:induction false} WriterThroughoutIff(worlds: seq<World>, events: seq<Event>, i: nat, n: nat, f: int)
    requires Run(worlds, events) && i <= n <= |events| && Access(worlds[i], f)
    ensures (forall k :: i <= k <= n ==> Access(worlds[k], f)) <==> NoMove(worlds, events, i, n)
  {
    if i < n {
      WriterThroughoutIff(worlds, events, i, n - 1, f);
      WriterAt(worlds, events, n - 1);
      if Access(worlds[n - 1], f) && Moves(worlds[n - 1], events[n - 1]) {
        AwayAt(worlds, events, n - 1, f);
      }
    }
  }

  lemma WritersStep(worlds: seq<World>, events: seq<Event>, n: nat, job: nat) returns (m: nat, f: int)
    requires Run(worlds, events) && n < |events|
    requires WritesBoard(worlds[n], events[n]) && job == events[n].choice.i
    ensures InSince(worlds, events, m, n, f, job)
  {
    InvRun(worlds, events, n, worlds[n]);
    f :| f in worlds[n].jobs && worlds[n].jobs[f] == job;
    m := EnteredAt(worlds, events, n, f, job);
  }

  lemma ChangesAreWrites(worlds: seq<World>, events: seq<Event>, n: nat)
    requires Run(worlds, events) && n < |events|
    requires worlds[n + 1].board.board != worlds[n].board.board
    ensures WritesBoard(worlds[n], events[n])
  {
    assert StepAt(worlds, events, n);
    if !WritesBoard(worlds[n], events[n]) {
      OnlyWritesChange(worlds[n], events[n]);
    }
  }

  /** Whatever step changes the board, or writes what it held before, is a step of a thread that was
      the writer when it was checked. It still is exactly if the right has not moved since, or has
      come back. */
  lemma BoardIsTheWriters(worlds: seq<World>, events: seq<Event>, n: nat) returns (m: nat, f: int)
    requires Run(worlds, events) && n < |events|
    requires worlds[n + 1].board.board != worlds[n].board.board || WritesBoard(worlds[n], events[n])
    ensures WritesBoard(worlds[n], events[n])
    ensures InSince(worlds, events, m, n, f, events[n].choice.i)
    ensures Access(worlds[n], f) <==> LastMoveTo(worlds, events, m + 1, n, f)
    ensures (forall k :: m < k <= n ==> Access(worlds[k], f)) <==> NoMove(worlds, events, m + 1, n)
  {
    if !WritesBoard(worlds[n], events[n]) { ChangesAreWrites(worlds, events, n); }
    m, f := WritersStep(worlds, events, n, events[n].choice.i);
    PassKeepsAccess(worlds, events, m, f);
    AccessIff(worlds, events, m + 1, n, f);
    WriterThroughoutIff(worlds, events, m + 1, n, f);
  }

  /** The check itself moves nothing. */
  lemma PassKeepsAccess(worlds: seq<World>, events: seq<Event>, m: nat, f: int)
    requires Run(worlds, events) && m < |events| && events[m] == OnServer(Runs.SecondLook(f)) && Access(worlds[m], f)
    ensures Access(worlds[m + 1], f)
  {
    WriterAt(worlds, events, m);
  }

  // ---------- two handlers at once ----------

  /** The first step that takes the right from f. */
  lemma {:induction false} FirstMove(worlds: seq<World>, events: seq<Event>, i: nat, n: nat, f: int) returns (j: nat)
    requires Run(worlds, events) && i <= n <= |events| && Access(worlds[i], f) && !Access(worlds[n], f)
    ensures i <= j < n && Moves(worlds[j], events[j]) && Access(worlds[j], f)
    ensures NoMove(worlds, events, i, j)
    decreases n - i
  {
    if i == n {
      assert false;
    } else if Moves(worlds[i], events[i]) {
      j := i;
    } else {
      WriterAt(worlds, events, i);
      j := FirstMove(worlds, events, i + 1, n, f);
    }
  }

  lemma InsideBefore(w: World, e: Event, f: int, job: nat)
    requires Inv(w) && Enabled(w, e) && HasJob(w, f, job) && HasJob(Next(w, e), f, job) && Inside(Next(w, e), f)
    ensures Inside(w, f)
  {
    if e.OnBoard? {
      BoardThreads(w.board, e.choice, Next(w, e).board);
    }
  }

  lemma {:induction false} InsideSince(
    worlds: seq<World>, events: seq<Event>, m: nat, k: nat, n: nat, f: int, job: nat)
    requires Run(worlds, events) && m < k <= n <= |events|
    requires InSince(worlds, events, m, n, f, job) && Inside(worlds[n], f)
    ensures Inside(worlds[k], f)
    decreases n
  {
    if k < n {
      InvRun(worlds, events, n - 1, worlds[n - 1]);
      assert StepAt(worlds, events, n - 1);
      InsideBefore(worlds[n - 1], events[n - 1], f, job);
      InsideSince(worlds, events, m, k, n - 1, f, job);
    }
  }

  lemma TwoInOrder(worlds: seq<World>, events: seq<Event>, a: nat, b: nat, n: nat, f: int, g: int, job: nat)
    returns (j: nat)
    requires Run(worlds, events) && a < b < n <= |events| && f != g
    requires InSince(worlds, events, a, n, f, job) && Inside(worlds[n], f)
    requires Access(worlds[b], g)
    ensures a < j < b && Moves(worlds[j], events[j])
    ensures Access(worlds[j], f) && Inside(worlds[j], f)
  {
    PassKeepsAccess(worlds, events, a, f);
    j := FirstMove(worlds, events, a + 1, b, f);
    InsideSince(worlds, events, a, j, n, f, job);
  }

  /** Two threads are in board_handler together only if the right was taken from one of them after
      its check, while it was inside, and before the check of the other. */
  lemma TwoInside(worlds: seq<World>, events: seq<Event>, n: nat, f: int, g: int)
    returns (first: int, second: int, a: nat, j: nat, b: nat)
    requires Run(worlds, events) && n <= |events|
    requires f != g && Inside(worlds[n], f) && Inside(worlds[n], g)
    ensures (first == f && second == g) || (first == g && second == f)
    ensures a < j < b < n
    ensures events[a] == OnServer(Runs.SecondLook(first)) && Access(worlds[a], first)
    ensures events[b] == OnServer(Runs.SecondLook(second)) && Access(worlds[b], second)
    ensures Moves(worlds[j], events[j]) && Access(worlds[j], first) && Inside(worlds[j], first)
  {
    var p := EnteredAt(worlds, events, n, f, worlds[n].jobs[f]);
    var q := EnteredAt(worlds, events, n, g, worlds[n].jobs[g]);
    assert p != q;
    if p < q {
      first, second, a, b := f, g, p, q;
    } else {
      first, second, a, b := g, f, q, p;
    }
    j := TwoInOrder(worlds, events, a, b, n, first, second, worlds[n].jobs[first]);
  }

  // ---------- the archive ----------

  /** The right never moves while its holder is in board_handler. */
  ghost predicate RightStays(worlds: seq<World>, events: seq<Event>, n: nat)
    requires |worlds| == |events| + 1 && n <= |events|
  {
    forall j :: 0 <= j < n && Moves(worlds[j], events[j]) ==> HolderOutside(worlds[j])
  }

  predicate HolderOutside(w: World) {
    w.server.list.writer.Some? ==> !Inside(w, w.server.list.writer.value.sfd)
  }

  lemma AtMostOneInside(worlds: seq<World>, events: seq<Event>, n: nat, f: int, g: int)
    requires Run(worlds, events) && n <= |events| && RightStays(worlds, events, n)
    requires Inside(worlds[n], f) && Inside(worlds[n], g)
    ensures f == g
  {
    if f != g {
      var first, second, a, j, b := TwoInside(worlds, events, n, f, g);
      assert false;
    }
  }

  /** Who passes the check finds nobody inside. */
  lemma EntersIdle(worlds: seq<World>, events: seq<Event>, n: nat, f: int)
    requires Run(worlds, events) && n < |events| && RightStays(worlds, events, n + 1)
    requires events[n] == OnServer(Runs.SecondLook(f)) && Access(worlds[n], f)
    ensures ArchiveText.Idle(worlds[n].board.threads)
  {
    var w := worlds[n];
    InvRun(worlds, events, n, w);
    assert StepAt(worlds, events, n);
    if !ArchiveText.Idle(w.board.threads) {
      var i :| 0 <= i < |w.board.threads| && ArchiveText.Handling(w.board.threads[i]);
      var g :| g in w.jobs && w.jobs[g] == i;
      PassInside(w, f, g);
      AtMostOneInside(worlds, events, n + 1, f, g);
    }
  }

  lemma PassInside(w: World, f: int, g: int)
    requires Inv(w) && Enabled(w, OnServer(Runs.SecondLook(f))) && Access(w, f) && Inside(w, g)
    ensures
      var w' := Next(w, OnServer(Runs.SecondLook(f)));
      f != g && Inside(w', f) && Inside(w', g)
  {
  }

  lemma ExactNext(worlds: seq<World>, events: seq<Event>, n: nat, w: World, w': World)
    requires Run(worlds, events) && n < |events| && RightStays(worlds, events, n + 1)
    requires w == worlds[n] && w' == worlds[n + 1] && ArchiveText.Exact(w.board)
    ensures ArchiveText.Exact(w'.board)
  {
    InvRun(worlds, events, n, w);
    assert StepAt(worlds, events, n);
    match events[n] {
      case OnBoard(choice) => ArchiveText.ExactStep(w.board, choice, w'.board);
      case OnServer(e) =>
        if Passes(w.server, e) {
          EntersIdle(worlds, events, n, e.sfd);
          var handler := Handler(w.server.threads[e.sfd].clear);
          ArchiveText.ExactStep(w.board, Handshake.Spawn(handler), w'.board);
        }
    }
  }

  lemma {:induction false} ExactRun(worlds: seq<World>, events: seq<Event>, n: nat, w: World)
    requires Run(worlds, events) && n <= |events| && RightStays(worlds, events, n) && w == worlds[n]
    ensures ArchiveText.Exact(w.board)
  {
    if n == 0 {
      ArchiveText.ExactAtStart(w.board);
    } else {
      ExactRun(worlds, events, n - 1, worlds[n - 1]);
      ExactNext(worlds, events, n - 1, worlds[n - 1], w);
    }
  }

  /** As long as the right never moves while its holder is in board_handler, each clear erases
      exactly the text archived for it. */
  lemma ArchivedIsErased(worlds: seq<World>, events: seq<Event>, n: nat)
    requires Run(worlds, events) && n <= |events| && RightStays(worlds, events, n)
    ensures ArchiveText.ArchiveIsErased(worlds[n].board)
  {
    ExactRun(worlds, events, n, worlds[n]);
    ArchiveText.ExactMeans(worlds[n].board);
  }

  // ---------- the right moves between check and write ----------

  lemma Grow(worlds: seq<World>, events: seq<Event>, e: Event) returns (worlds': seq<World>, events': seq<Event>)
    requires Run(worlds, events) && Enabled(worlds[|events|], e)
    ensures Run(worlds', events') && events' == events + [e]
    ensures worlds' == worlds + [Next(worlds[|events|], e)]
  {
    worlds', events' := worlds + [Next(worlds[|events|], e)], events + [e];
    forall i: nat | i < |events'| ensures StepAt(worlds', events', i) {
      if i < |events| { assert StepAt(worlds, events, i); }
    }
  }

  const D := Client(1, 4, DOCENT, [])
  const T := Client(2, 5, STUDENT, [])

  function Pair(writer: Client, docentPhase: Runs.Phase, studentPhase: Runs.Phase): Runs.System {
    Runs.System(ListState([D, T], Some(D), Some(writer)), 2, map[4 := docentPhase, 5 := studentPhase], false)
  }

  function Untouched(b: seq<Byte>): Handshake.State {
    Handshake.State(1, 1, b, Handshake.Await, [], 0, 0, [], [], [CString(b)], [], map[])
  }

  lemma DocentIn(b: seq<Byte>) returns (worlds: seq<World>, events: seq<Event>)
    requires IsBoard(b)
    ensures Run(worlds, events)
    ensures worlds[|events|].server == Runs.System(ListState([D], Some(D), Some(D)), 1, map[4 := Runs.Serving], false)
    ensures worlds[|events|].board == Untouched(b) && worlds[|events|].jobs == map[]
  {
    worlds, events := [World(Runs.START, Untouched(b), map[])], [];
    worlds, events := Grow(worlds, events, OnServer(Runs.Connect(4, DOCENT, [])));
    worlds, events := Grow(worlds, events, OnServer(Runs.Decide(4)));
    worlds, events := Grow(worlds, events, OnServer(Runs.Enter(4)));
  }

  lemma Logins(b: seq<Byte>) returns (worlds: seq<World>, events: seq<Event>)
    requires IsBoard(b)
    ensures Run(worlds, events)
    ensures worlds[|events|] == World(Pair(D, Runs.Serving, Runs.Serving), Untouched(b), map[])
  {
    worlds, events := DocentIn(b);
    worlds, events := Grow(worlds, events, OnServer(Runs.Connect(5, STUDENT, [])));
    worlds, events := Grow(worlds, events, OnServer(Runs.Decide(5)));
    worlds, events := Grow(worlds, events, OnServer(Runs.Enter(5)));
  }

  lemma PairFinds(l: ListState)
    requires l.clients == [D, T]
    ensures FindSfd(l.clients, 5) == Some(T) && FindCid(l.clients, 2) == Some(T)
  {
    assert [D, T][1..] == [T];
    assert IndexOfSfd([D, T], 5) == 1 && IndexOfCid([D, T], 2) == 1;
  }

  /** The student asks and the docent says yes. */
  lemma Granted(b: seq<Byte>) returns (worlds: seq<World>, events: seq<Event>)
    requires IsBoard(b)
    ensures Run(worlds, events)
    ensures worlds[|events|] == World(Pair(T, Runs.Serving, Runs.Serving), Untouched(b), map[])
  {
    worlds, events := Logins(b);
    PairFinds(worlds[|events|].server.list);
    worlds, events := Grow(worlds, events, OnServer(Runs.Request(5, 1, true)));
    worlds, events := Grow(worlds, events, OnServer(Runs.Reply(4, 1, 2)));
  }

  /** A clear of the student passes its check. */
  lemma Clearing(b: seq<Byte>) returns (worlds: seq<World>, events: seq<Event>)
    requires IsBoard(b)
    ensures Run(worlds, events)
    ensures worlds[|events|] ==
      World(Pair(T, Runs.Serving, Runs.Writing(true)), Untouched(b).(threads := [Handshake.ClearFire]), map[5 := 0])
  {
    worlds, events := Granted(b);
    worlds, events := Grow(worlds, events, OnServer(Runs.FirstLook(5, true)));
    worlds, events := Grow(worlds, events, OnServer(Runs.SecondLook(5)));
  }

  function Archived(b: seq<Byte>): Handshake.State {
    Handshake.State(1, 1, b, Handshake.Await, [Handshake.ClearLock], 2, 2, [CString(b)], [], [CString(b)], [0], map[])
  }

  /** The archiver saves the board for the clear. */
  lemma Saved(b: seq<Byte>) returns (worlds: seq<World>, events: seq<Event>)
    requires IsBoard(b)
    ensures Run(worlds, events)
    ensures worlds[|events|] == World(Pair(T, Runs.Serving, Runs.Writing(true)), Archived(b), map[5 := 0])
  {
    worlds, events := Clearing(b);
    worlds, events := Grow(worlds, events, OnBoard(Handshake.Go(0, None)));
    worlds, events := Grow(worlds, events, OnBoard(Handshake.Archive));
    worlds, events := Grow(worlds, events, OnBoard(Handshake.Archive));
    worlds, events := Grow(worlds, events, OnBoard(Handshake.Archive));
    worlds, events := Grow(worlds, events, OnBoard(Handshake.Archive));
    worlds, events := Grow(worlds, events, OnBoard(Handshake.Archive));
    worlds, events := Grow(worlds, events, OnBoard(Handshake.Archive));
    worlds, events := Grow(worlds, events, OnBoard(Handshake.Go(0, None)));
  }

  /** The docent takes the right back. */
  lemma Revoked(b: seq<Byte>) returns (worlds: seq<World>, events: seq<Event>)
    requires IsBoard(b)
    ensures Run(worlds, events)
    ensures worlds[|events|] == World(Pair(D, Runs.Serving, Runs.Writing(true)), Archived(b), map[5 := 0])
  {
    worlds, events := Saved(b);
    worlds, events := Grow(worlds, events, OnServer(Runs.Request(4, 1, true)));
  }

  /** An update of the docent passes its check. */
  lemma Updating(b: seq<Byte>) returns (worlds: seq<World>, events: seq<Event>)
    requires IsBoard(b)
    ensures Run(worlds, events)
    ensures worlds[|events|] ==
      World(Pair(D, Runs.Writing(false), Runs.Writing(true)),
            Archived(b).(threads := [Handshake.ClearLock, Handshake.UpdateLock]),
            map[5 := 0, 4 := 1])
  {
    worlds, events := Revoked(b);
    worlds, events := Grow(worlds, events, OnServer(Runs.FirstLook(4, false)));
    worlds, events := Grow(worlds, events, OnServer(Runs.SecondLook(4)));
  }

  /** The update has erased the board. */
  lemma Erased(b: seq<Byte>) returns (worlds: seq<World>, events: seq<Event>)
    requires IsBoard(b)
    ensures Run(worlds, events)
    ensures worlds[|events|] ==
      World(Pair(D, Runs.Writing(false), Runs.Writing(true)),
            Archived(b).(bsem := 0, board := BLANK, threads := [Handshake.ClearLock, Handshake.UpdateCopy],
                         texts := [CString(b), CString(BLANK)]),
            map[5 := 0, 4 := 1])
  {
    worlds, events := Updating(b);
    worlds, events := Grow(worlds, events, OnBoard(Handshake.Go(1, None)));
    worlds, events := Grow(worlds, events, OnBoard(Handshake.Go(1, None)));
  }

  /** The update is stored. */
  lemma Updated(b: seq<Byte>, update: seq<Byte>) returns (worlds: seq<World>, events: seq<Event>)
    requires IsBoard(b)
    ensures Run(worlds, events)
    ensures worlds[|events|] ==
      World(Pair(D, Runs.Writing(false), Runs.Writing(true)),
            Archived(b).(board := Stored(update), threads := [Handshake.ClearLock, Handshake.Done],
                         texts := [CString(b), CString(BLANK), CString(Stored(update))]),
            map[5 := 0, 4 := 1])
  {
    worlds, events := Erased(b);
    worlds, events := Grow(worlds, events, OnBoard(Handshake.Go(1, Some(update))));
    worlds, events := Grow(worlds, events, OnBoard(Handshake.Go(1, None)));
  }

  /** The clear of a student that has lost the right meanwhile erases the docent's update, which
      has never been archived. */
  lemma UpdateLost(b: seq<Byte>, update: seq<Byte>) returns (worlds: seq<World>, events: seq<Event>)
    requires IsBoard(b)
    ensures Run(worlds, events) && |events| > 0
    ensures
      var n := |events| - 1;
      var before, after := worlds[n], worlds[n + 1];
      && WritesBoard(before, events[n]) && HasJob(before, 5, events[n].choice.i) && !Access(before, 5)
      && before.board.board == Stored(update) && after.board.board == BLANK
      && after.board.archive == [CString(b)] && after.board.erased == [CString(Stored(update))]
  {
    worlds, events := Updated(b, update);
    worlds, events := Grow(worlds, events, OnBoard(Handshake.Go(0, None)));
    worlds, events := Grow(worlds, events, OnBoard(Handshake.Go(0, None)));
  }

  /** The docent takes the right back and gives it again while a clear is inside: its thread is the
      writer when it erases the board, although the right has moved twice since its check. */
  lemma RightComesBack(b: seq<Byte>) returns (worlds: seq<World>, events: seq<Event>, m: nat)
    requires IsBoard(b)
    ensures Run(worlds, events) && |events| > 0
    ensures
      var n := |events| - 1;
      && WritesBoard(worlds[n], events[n]) && Access(worlds[n], 5)
      && InSince(worlds, events, m, n, 5, events[n].choice.i) && !NoMove(worlds, events, m + 1, n)
  {
    worlds, events := Revoked(b);
    var before := |events|;
    PairFinds(worlds[before].server.list);
    var reply := OnServer(Runs.Reply(4, 1, 2));
    assert Moves(worlds[before], reply);
    worlds, events := Grow(worlds, events, reply);
    worlds, events := Grow(worlds, events, OnBoard(Handshake.Go(0, None)));
    worlds, events := Grow(worlds, events, OnBoard(Handshake.Go(0, None)));
    var n := |events| - 1;
    m := EnteredAt(worlds, events, n, 5, 0);
    assert m != before && m != before + 1;
    assert events[before] == reply && Moves(worlds[before], events[before]);
  }
}
