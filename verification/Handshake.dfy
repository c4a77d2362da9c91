/**
 The handshake between board_handler (src/server/message_handler.c), the archiver
 (src/server/archiver.c) and the readers of the board, over the two semaphores of
 src/server/semaphore.c. Any number of threads run interleaved; each semaphore call and each
 access to the board is one step.
 */
module Handshake {
  import opened Commons
  import opened Blackboards

  /** Where a thread is; each name is what it does next. */
  datatype Thread =
    | ClearFire | ClearWait | ClearLock | ClearErase | ClearUnlock | ClearDone
    | UpdateLock | UpdateErase | UpdateCopy | UpdateUnlock
    | ReadLock | ReadBoard | ReadUnlock
    | Done

  datatype Archiver = Await | Lock | Write | Unlock | Notify | Reset

  /** `asem` and `bsem` are the semaphores. `locks` and `releases` count the handlers' locks of
      `asem` and the archiver's releases; `archive` and `erased` are the texts written by the
      archiver and those a clear has erased. `texts` are all texts the board has had, the current
      one last; `saved` tells which of them the archiver wrote, `seen` which a reader has read. */
  datatype State = State(
    asem: int, bsem: int, board: seq<Byte>, archiver: Archiver, threads: seq<Thread>,
    locks: nat, releases: nat, archive: seq<seq<Byte>>, erased: seq<seq<Byte>>,
    texts: seq<seq<Byte>>, saved: seq<nat>, seen: map<nat, nat>)

  datatype Choice =
    | Spawn(thread: Thread)
    | Go(i: nat, received: Option<seq<Byte>>)
    | Archive

  predicate Initial(s: State) {
    && s == State(1, 1, s.board, Await, [], 0, 0, [], [], [CString(s.board)], [], map[])
    && IsBoard(s.board)
  }

  predicate Enabled(s: State, c: Choice) {
    match c
    case Spawn(t) => t.ClearFire? || t.UpdateLock? || t.ReadLock?
    case Archive =>
      (s.archiver.Await? ==> s.asem == 0) && (s.archiver.Lock? ==> s.bsem > 0)
    case Go(i, received) =>
      && i < |s.threads|
      && match s.threads[i]
         case ClearFire | ClearWait => s.asem > 0
         case ClearLock | UpdateLock | ReadLock => s.bsem > 0
         case ClearDone | Done => false
         case _ => true
  }

  /** Which text the board has now, counted from 0. */
  function Version(s: State): nat { if s.texts == [] then 0 else |s.texts| - 1 }

  function Put(s: State, b: seq<Byte>): State {
    s.(board := b, texts := s.texts + [CString(b)])
  }

  /** `received` is what recv() delivers at UpdateCopy, None if it failed or had nothing to read. */
  function ThreadNext(s: State, i: nat, received: Option<seq<Byte>>): State
    requires Enabled(s, Go(i, received))
  {
    match s.threads[i]
    case ClearFire => s.(asem := s.asem - 1, locks := s.locks + 1, threads := s.threads[i := ClearWait])
    case ClearWait => s.(asem := s.asem - 1, locks := s.locks + 1, threads := s.threads[i := ClearLock])
    case ClearLock => s.(bsem := s.bsem - 1, threads := s.threads[i := ClearErase])
    case ClearErase =>
      Put(s, BLANK).(erased := s.erased + [CString(s.board)], threads := s.threads[i := ClearUnlock])
    case ClearUnlock => s.(bsem := s.bsem + 1, threads := s.threads[i := ClearDone])
    case UpdateLock => s.(bsem := s.bsem - 1, threads := s.threads[i := UpdateErase])
    case UpdateErase => Put(s, BLANK).(threads := s.threads[i := UpdateCopy])
    case UpdateCopy =>
      (if received.Some? then Put(s, Stored(received.value)) else s).(threads := s.threads[i := UpdateUnlock])
    case UpdateUnlock => s.(bsem := s.bsem + 1, threads := s.threads[i := Done])
    case ReadLock => s.(bsem := s.bsem - 1, threads := s.threads[i := ReadBoard])
    case ReadBoard => s.(seen := s.seen[i := Version(s)], threads := s.threads[i := ReadUnlock])
    case ReadUnlock => s.(bsem := s.bsem + 1, threads := s.threads[i := Done])
  }

  function ArchiverNext(s: State): State {
    match s.archiver
    case Await => s.(archiver := Lock)
    case Lock => s.(bsem := s.bsem - 1, archiver := Write)
    case Write =>
      s.(archive := s.archive + [CString(s.board)], saved := s.saved + [Version(s)], archiver := Unlock)
    case Unlock => s.(bsem := s.bsem + 1, archiver := Notify)
    case Notify => s.(asem := s.asem + 1, releases := s.releases + 1, archiver := Reset)
    case Reset => s.(asem := s.asem + 1, releases := s.releases + 1, archiver := Await)
  }

  function Next(s: State, c: Choice): State
    requires Enabled(s, c)
  {
    match c
    case Spawn(t) => s.(threads := s.threads + [t])
    case Archive => ArchiverNext(s)
    case Go(i, received) => ThreadNext(s, i, received)
  }

  ghost predicate Run(states: seq<State>, choices: seq<Choice>) {
    && |states| == |choices| + 1
    && Initial(states[0])
    && Steps(states, choices)
  }

  ghost predicate Steps(states: seq<State>, choices: seq<Choice>)
    requires |states| == |choices| + 1
  {
    forall i: nat :: i < |choices| ==> StepAt(states, choices, i)
  }

  ghost predicate StepAt(states: seq<State>, choices: seq<Choice>, i: nat)
    requires |states| == |choices| + 1 && i < |choices|
  {
    Enabled(states[i], choices[i]) && states[i + 1] == Next(states[i], choices[i])
  }

  // ---------- sums over the threads ----------

  function Sum(threads: seq<Thread>, f: Thread -> nat): nat {
    if threads == [] then 0 else Sum(threads[..|threads| - 1], f) + f(threads[|threads| - 1])
  }

  lemma {:induction false} SumUpdate(threads: seq<Thread>, i: nat, t: Thread, f: Thread -> nat)
    requires i < |threads|
    ensures Sum(threads[i := t], f) + f(threads[i]) == Sum(threads, f) + f(t)
  {
    var n := |threads| - 1;
    if i < n {
      SumUpdate(threads[..n], i, t, f);
      assert threads[i := t][..n] == threads[..n][i := t];
    } else {
      assert threads[i := t][..n] == threads[..n];
    }
  }

  lemma SumAppend(threads: seq<Thread>, t: Thread, f: Thread -> nat)
    ensures Sum(threads + [t], f) == Sum(threads, f) + f(t)
  {
    assert (threads + [t])[..|threads|] == threads;
  }

  lemma {:induction false} SumAtLeast(threads: seq<Thread>, i: nat, f: Thread -> nat)
    requires i < |threads|
    ensures f(threads[i]) <= Sum(threads, f)
  {
    if i < |threads| - 1 { SumAtLeast(threads[..|threads| - 1], i, f); }
  }

  lemma {:induction false} SumTwo(threads: seq<Thread>, i: nat, j: nat, f: Thread -> nat)
    requires i < j < |threads|
    ensures f(threads[i]) + f(threads[j]) <= Sum(threads, f)
  {
    var n := |threads| - 1;
    if j < n { SumTwo(threads[..n], i, j, f); } else { SumAtLeast(threads[..n], i, f); }
  }

  lemma {:induction false} SumPositive(threads: seq<Thread>, f: Thread -> nat) returns (i: nat)
    requires Sum(threads, f) > 0
    ensures i < |threads| && f(threads[i]) > 0
  {
    var n := |threads| - 1;
    if f(threads[n]) > 0 { i := n; } else { i := SumPositive(threads[..n], f); }
  }

  // ---------- what is counted ----------

  /** How often a handler has locked the archiver's semaphore. */
  function Taken(t: Thread): nat {
    match t
    case ClearWait => 1
    case ClearLock | ClearErase | ClearUnlock | ClearDone => 2
    case _ => 0
  }

  /** Whether a thread holds the board's semaphore. */
  function Holds(t: Thread): nat {
    match t
    case ClearErase | ClearUnlock | UpdateErase | UpdateCopy | UpdateUnlock | ReadBoard | ReadUnlock => 1
    case _ => 0
  }

  function Erased(t: Thread): nat {
    if t.ClearUnlock? || t.ClearDone? then 1 else 0
  }

  /** Whether a thread is a clear that has not returned. */
  function Clearing(t: Thread): nat {
    match t
    case ClearFire | ClearWait | ClearLock | ClearErase | ClearUnlock => 1
    case _ => 0
  }

  /** How many clears have returned. */
  function Cleared(t: Thread): nat { if t.ClearDone? then 1 else 0 }

  /** Steps a thread has left. */
  function Left(t: Thread): nat {
    match t
    case ClearFire => 5
    case ClearWait | UpdateLock => 4
    case ClearLock | UpdateErase | ReadLock => 3
    case ClearErase | UpdateCopy | ReadBoard => 2
    case ClearUnlock | UpdateUnlock | ReadUnlock => 1
    case _ => 0
  }

  predicate ArchiverHolds(a: Archiver) { a.Write? || a.Unlock? }

  /** Releases the archiver still owes for the text it has written. */
  function Owed(a: Archiver): nat {
    if a.Unlock? || a.Notify? then 2 else if a.Reset? then 1 else 0
  }

  /** Steps the archiver can take before it has to wait. */
  function Distance(s: State): nat {
    match s.archiver
    case Await => if s.asem == 0 then 6 else 0
    case Lock => 5
    case Write => 4
    case Unlock => 3
    case Notify => 2
    case Reset => 1
  }

  /** The board and its semaphore. */
  ghost predicate BoardOk(s: State) {
    && IsBoard(s.board)
    && s.bsem >= 0
    && s.bsem + Sum(s.threads, Holds) + (if ArchiverHolds(s.archiver) then 1 else 0) == 1
    && |s.erased| == Sum(s.threads, Erased)
  }

  /** The archiver's semaphore. */
  ghost predicate ArchiverOk(s: State) {
    && s.asem == 1 + s.releases - s.locks
    && 0 <= s.asem <= 2
    && s.locks == Sum(s.threads, Taken)
    && s.releases + Owed(s.archiver) == 2 * |s.archive|
    && (!s.archiver.Await? && !s.archiver.Reset? ==> s.asem == 0)
    && (s.archiver.Reset? ==> s.asem <= 1)
  }

  ghost predicate Inv(s: State) { BoardOk(s) && ArchiverOk(s) }

  /** A thread's step changes every sum by what changes for that thread. */
  lemma GoSums(s: State, i: nat, received: Option<seq<Byte>>)
    requires Enabled(s, Go(i, received))
    ensures
      var s' := Next(s, Go(i, received));
      var t, t' := s.threads[i], s'.threads[i];
      && Sum(s'.threads, Holds) + Holds(t) == Sum(s.threads, Holds) + Holds(t')
      && Sum(s'.threads, Taken) + Taken(t) == Sum(s.threads, Taken) + Taken(t')
      && Sum(s'.threads, Erased) + Erased(t) == Sum(s.threads, Erased) + Erased(t')
      && Sum(s'.threads, Left) + Left(t) == Sum(s.threads, Left) + Left(t')
  {
    var s' := Next(s, Go(i, received));
    var t := s'.threads[i];
    assert s'.threads == s.threads[i := t];
    SumUpdate(s.threads, i, t, Holds);
    SumUpdate(s.threads, i, t, Taken);
    SumUpdate(s.threads, i, t, Erased);
    SumUpdate(s.threads, i, t, Left);
  }

  lemma GoKeepsBoard(s: State, i: nat, received: Option<seq<Byte>>)
    requires IsBoard(s.board) && Enabled(s, Go(i, received))
    ensures IsBoard(Next(s, Go(i, received)).board)
  {
  }

  /** How a thread's step changes what BoardOk counts. */
  lemma GoCounts(s: State, i: nat, received: Option<seq<Byte>>, s': State)
    requires s.bsem >= 0 && Enabled(s, Go(i, received)) && s' == Next(s, Go(i, received))
    ensures s'.bsem + Holds(s'.threads[i]) == s.bsem + Holds(s.threads[i]) && s'.bsem >= 0
    ensures |s'.erased| + Erased(s.threads[i]) == |s.erased| + Erased(s'.threads[i])
    ensures s'.archiver == s.archiver
  {
  }

  lemma GoBoard(s: State, i: nat, received: Option<seq<Byte>>)
    requires BoardOk(s) && Enabled(s, Go(i, received))
    ensures BoardOk(Next(s, Go(i, received)))
  {
    GoKeepsBoard(s, i, received);
    GoCounts(s, i, received, Next(s, Go(i, received)));
    GoSums(s, i, received);
  }

  lemma GoArchiver(s: State, i: nat, received: Option<seq<Byte>>)
    requires ArchiverOk(s) && Enabled(s, Go(i, received))
    ensures ArchiverOk(Next(s, Go(i, received)))
  {
    GoSums(s, i, received);
  }

  lemma SpawnStep(s: State, t: Thread)
    requires Inv(s) && Enabled(s, Spawn(t))
    ensures Inv(Next(s, Spawn(t)))
  {
    SumAppend(s.threads, t, Holds);
    SumAppend(s.threads, t, Taken);
    SumAppend(s.threads, t, Erased);
  }

  lemma ArchiveBoard(s: State)
    requires BoardOk(s) && Enabled(s, Archive)
    ensures BoardOk(Next(s, Archive))
  {
  }

  lemma ArchiveArchiver(s: State)
    requires ArchiverOk(s) && Enabled(s, Archive)
    ensures ArchiverOk(Next(s, Archive))
  {
  }

  /** Every step keeps the invariant. */
  lemma InvStep(s: State, c: Choice)
    requires Inv(s) && Enabled(s, c)
    ensures Inv(Next(s, c))
  {
    match c {
      case Spawn(t) => SpawnStep(s, t);
      case Archive => ArchiveBoard(s); ArchiveArchiver(s);
      case Go(i, received) => GoBoard(s, i, received); GoArchiver(s, i, received);
    }
  }

  lemma {:induction false} InvRun(states: seq<State>, choices: seq<Choice>, n: nat)
    requires Run(states, choices) && n <= |choices|
    ensures Inv(states[n]) && 0 <= states[n].bsem <= 1
    ensures IsBoard(states[n].board) && |CString(states[n].board)| < BLACKBOARD_BYTESIZE
  {
    BoardTextFits(states[n].board);
    if n > 0 {
      InvRun(states, choices, n - 1);
      assert StepAt(states, choices, n - 1);
      InvStep(states[n - 1], choices[n - 1]);
    }
  }

  // ---------- counting ----------

  lemma {:induction false} NobodyClearing(threads: seq<Thread>)
    requires Sum(threads, Clearing) == 0
    ensures Sum(threads, Taken) == 2 * Sum(threads, Cleared)
    ensures Sum(threads, Erased) == Sum(threads, Cleared)
  {
    if threads != [] {
      NobodyClearing(threads[..|threads| - 1]);
    }
  }

  /** In every reachable state the archiver's semaphore is 1 plus its releases minus the handlers'
      locks and lies in 0..2; whenever no clear is in progress and the archiver waits it is 1, and
      there are as many archived texts as clears. */
  lemma Counting(states: seq<State>, choices: seq<Choice>, n: nat)
    requires Run(states, choices) && n <= |choices|
    ensures var s := states[n];
      && s.asem == 1 + s.releases - s.locks
      && 0 <= s.asem <= 2
      && (Sum(s.threads, Clearing) == 0 && s.archiver.Await? ==>
            s.asem == 1 && |s.archive| == Sum(s.threads, Cleared) == |s.erased|)
  {
    InvRun(states, choices, n);
    var s := states[n];
    if Sum(s.threads, Clearing) == 0 {
      NobodyClearing(s.threads);
    }
  }

  /** Whether a clear has passed its wait for the archiver. */
  function Waited(t: Thread): nat {
    if t.ClearLock? || t.ClearErase? || t.ClearUnlock? || t.ClearDone? then 1 else 0
  }

  lemma {:induction false} WaitedTwice(threads: seq<Thread>)
    ensures Sum(threads, Erased) <= Sum(threads, Waited) && 2 * Sum(threads, Waited) <= Sum(threads, Taken)
  {
    if threads != [] { WaitedTwice(threads[..|threads| - 1]); }
  }

  /** However many handlers there are, no clear passes its wait, and so none erases, before the
      archiver has written one text more for it. */
  lemma EachClearIsArchived(states: seq<State>, choices: seq<Choice>, n: nat)
    requires Run(states, choices) && n <= |choices|
    ensures |states[n].erased| <= Sum(states[n].threads, Waited) <= |states[n].archive|
  {
    InvRun(states, choices, n);
    WaitedTwice(states[n].threads);
  }

  lemma {:induction false} OddTaken(threads: seq<Thread>) returns (i: nat)
    requires Sum(threads, Taken) % 2 == 1
    ensures i < |threads| && threads[i] == ClearWait
  {
    var n := |threads| - 1;
    if threads[n] == ClearWait {
      i := n;
    } else {
      i := OddTaken(threads[..n]);
    }
  }

  /** The archiver only starts while some clear is between its two locks. */
  lemma FiredByAClear(s: State) returns (i: nat)
    requires Inv(s) && s.archiver.Await? && Enabled(s, Archive)
    ensures i < |s.threads| && s.threads[i] == ClearWait
  {
    i := OddTaken(s.threads);
  }

  // ---------- the board's semaphore ----------

  /** Whoever holds the board is alone with it: nobody reads or archives between the erasing
      and the copying of an update. */
  lemma HoldersAlone(s: State, i: nat)
    requires Inv(s) && i < |s.threads| && Holds(s.threads[i]) == 1
    ensures s.bsem == 0 && !ArchiverHolds(s.archiver)
    ensures forall j :: 0 <= j < |s.threads| && j != i ==> Holds(s.threads[j]) == 0
  {
    SumAtLeast(s.threads, i, Holds);
    forall j | 0 <= j < |s.threads| && j != i ensures Holds(s.threads[j]) == 0 {
      if i < j { SumTwo(s.threads, i, j, Holds); } else { SumTwo(s.threads, j, i, Holds); }
    }
  }

  /** The board is blank from the erasing of an update to its copying, and from that of a clear on. */
  ghost predicate BlankBetween(s: State) {
    forall i :: 0 <= i < |s.threads| && (s.threads[i].UpdateCopy? || s.threads[i].ClearUnlock?) ==> s.board == BLANK
  }

  lemma BlankStep(s: State, c: Choice)
    requires Inv(s) && BlankBetween(s) && Enabled(s, c)
    ensures BlankBetween(Next(s, c))
  {
    var s' := Next(s, c);
    if c.Go? && s'.board != s.board {
      HoldersAlone(s, c.i);
      assert forall j :: 0 <= j < |s.threads| && j != c.i ==> s'.threads[j] == s.threads[j];
    }
  }

  lemma {:induction false} BlankRun(states: seq<State>, choices: seq<Choice>, n: nat)
    requires Run(states, choices) && n <= |choices|
    ensures BlankBetween(states[n])
  {
    if n > 0 {
      BlankRun(states, choices, n - 1);
      InvRun(states, choices, n - 1);
      assert StepAt(states, choices, n - 1);
      BlankStep(states[n - 1], choices[n - 1]);
    }
  }

  /** In every interleaving the two steps of an update write what WriteBoard does in one. */
  lemma UpdateWritesBoard(states: seq<State>, choices: seq<Choice>, n: nat)
    requires Run(states, choices) && n < |choices|
    requires choices[n].Go? && choices[n].i < |states[n].threads| && states[n].threads[choices[n].i].UpdateCopy?
    ensures states[n + 1].board ==
      if choices[n].received.Some? then Stored(choices[n].received.value) else BLANK
  {
    BlankRun(states, choices, n);
    assert StepAt(states, choices, n);
  }

  // ---------- progress ----------

  /** As long as a thread has not returned, some thread or the archiver can take a step. */
  lemma NeverStuck(s: State) returns (c: Choice)
    requires Inv(s) && Sum(s.threads, Left) > 0
    ensures !c.Spawn? && Enabled(s, c)
  {
    var i := SumPositive(s.threads, Left);
    c := Go(i, None);
    if !Enabled(s, c) {
      if s.threads[i].ClearFire? || s.threads[i].ClearWait? {
        c := Archive;
      }
      if !Enabled(s, c) {
        if ArchiverHolds(s.archiver) {
          c := Archive;
        } else {
          var j := SumPositive(s.threads, Holds);
          c := Go(j, None);
        }
      }
    }
  }

  /** Decreases with every step that is not an arrival. */
  function Measure(s: State): nat { 7 * Sum(s.threads, Left) + Distance(s) }

  lemma MeasureDecreases(s: State, c: Choice)
    requires Inv(s) && Enabled(s, c) && !c.Spawn?
    ensures Measure(Next(s, c)) < Measure(s)
  {
    match c {
      case Archive =>
      case Go(i, received) => GoSums(s, i, received);
    }
  }

  /** Without new arrivals every run ends, within Measure steps. */
  lemma {:induction false} RunsEnd(states: seq<State>, choices: seq<Choice>, n: nat)
    requires |states| == |choices| + 1 && Steps(states, choices) && Inv(states[0])
    requires n <= |choices| && forall i :: 0 <= i < n ==> !choices[i].Spawn?
    ensures Inv(states[n]) && n + Measure(states[n]) <= Measure(states[0])
  {
    if n > 0 {
      RunsEnd(states, choices, n - 1);
      assert StepAt(states, choices, n - 1);
      InvStep(states[n - 1], choices[n - 1]);
      MeasureDecreases(states[n - 1], choices[n - 1]);
    }
  }

  /** A run can only end with all threads returned, the archiver waiting on a semaphore of 1,
      and one archived text for each clear. */
  lemma EndState(s: State)
    requires Inv(s) && (forall c: Choice :: !c.Spawn? ==> !Enabled(s, c))
    ensures Sum(s.threads, Left) == 0 && s.archiver.Await? && s.asem == 1
    ensures |s.archive| == Sum(s.threads, Cleared)
  {
    if Sum(s.threads, Left) > 0 {
      var c := NeverStuck(s);
    }
    NobodyLeft(s.threads);
    NobodyClearing(s.threads);
    assert !Enabled(s, Archive);
  }

  lemma {:induction false} NobodyLeft(threads: seq<Thread>)
    requires Sum(threads, Left) == 0
    ensures Sum(threads, Clearing) == 0 && Sum(threads, Holds) == 0
  {
    if threads != [] {
      NobodyLeft(threads[..|threads| - 1]);
    }
  }
}
