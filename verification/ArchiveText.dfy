/** What the archiver writes: with one board handler at a time, and with any number. */
module ArchiveText {
  import opened Commons
  import opened Blackboards
  import opened Handshake

  /** Whether a thread is in board_handler. */
  predicate Handling(t: Thread) {
    t.ClearFire? || t.ClearWait? || t.ClearLock? || t.ClearErase? || t.ClearUnlock?
    || t.UpdateLock? || t.UpdateErase? || t.UpdateCopy? || t.UpdateUnlock?
  }

  predicate Idle(threads: seq<Thread>) {
    forall i :: 0 <= i < |threads| ==> !Handling(threads[i])
  }

  predicate OneAtMost(threads: seq<Thread>) {
    forall i, j :: 0 <= i < j < |threads| ==> !(Handling(threads[i]) && Handling(threads[j]))
  }

  /** A handler starts only when none is at work. Readers come and go as they like. */
  ghost predicate OneHandler(states: seq<State>, choices: seq<Choice>)
    requires |states| == |choices| + 1
  {
    forall i :: 0 <= i < |choices| && choices[i].Spawn? && Handling(choices[i].thread) ==> Idle(states[i].threads)
  }

  /** The archiver has written the text of the clear that is waiting for it. */
  predicate Written(s: State) {
    s.archiver.Unlock? || s.archiver.Notify? || s.archiver.Reset? || (s.archiver.Await? && s.asem == 2)
  }

  predicate Resting(s: State) { s.archiver.Await? || s.archiver.Reset? }

  /** How archived and erased texts compare while a handler is at `t`. */
  predicate Compares(s: State, t: Thread) {
    if t.ClearWait? then
      s.archive == s.erased + if Written(s) then [CString(s.board)] else []
    else if t.ClearLock? || t.ClearErase? then
      s.archive == s.erased + [CString(s.board)] && Resting(s)
    else
      s.archive == s.erased && Resting(s)
  }

  ghost predicate Exact(s: State) {
    && OneAtMost(s.threads)
    && (forall i :: 0 <= i < |s.threads| && Handling(s.threads[i]) ==> Compares(s, s.threads[i]))
    && (Idle(s.threads) ==> s.archive == s.erased && Resting(s))
  }

  lemma {:induction false} NoWaiter(threads: seq<Thread>)
    requires forall i :: 0 <= i < |threads| ==> threads[i] != ClearWait
    ensures Sum(threads, Taken) % 2 == 0
  {
    if threads != [] { NoWaiter(threads[..|threads| - 1]); }
  }

  /** The handlers' locks are odd in number exactly while the one handler is between its two. */
  lemma Parity(threads: seq<Thread>, i: nat)
    requires OneAtMost(threads) && i < |threads| && Handling(threads[i])
    ensures Sum(threads, Taken) % 2 == if threads[i] == ClearWait then 1 else 0
  {
    var others := threads[i := Done];
    forall j | 0 <= j < |others| ensures others[j] != ClearWait {
      if j < i { assert !Handling(threads[j]); }
      if i < j { assert !Handling(threads[j]); }
    }
    SumUpdate(threads, i, Done, Taken);
    NoWaiter(others);
  }

  /** The one handler's step keeps archived and erased texts comparable. */
  lemma HandlerCompares(s: State, i: nat, received: Option<seq<Byte>>, s': State)
    requires Inv(s) && Enabled(s, Go(i, received)) && Handling(s.threads[i]) && OneAtMost(s.threads)
    requires Compares(s, s.threads[i]) && s' == Next(s, Go(i, received))
    ensures Compares(s', s'.threads[i])
  {
    Parity(s.threads, i);
  }

  lemma HandlerStep(s: State, i: nat, received: Option<seq<Byte>>)
    requires Inv(s) && Exact(s) && Enabled(s, Go(i, received)) && Handling(s.threads[i])
    ensures Exact(Next(s, Go(i, received)))
  {
    var s' := Next(s, Go(i, received));
    HandlerCompares(s, i, received, s');
    assert forall j :: 0 <= j < |s.threads| && j != i ==> !Handling(s.threads[j]) && s'.threads[j] == s.threads[j];
  }

  lemma ReaderStep(s: State, i: nat, received: Option<seq<Byte>>)
    requires Inv(s) && Exact(s) && Enabled(s, Go(i, received)) && !Handling(s.threads[i])
    ensures Exact(Next(s, Go(i, received)))
  {
    var s' := Next(s, Go(i, received));
    assert forall j :: 0 <= j < |s.threads| ==> (Handling(s'.threads[j]) <==> Handling(s.threads[j]));
    assert forall j :: 0 <= j < |s.threads| && Handling(s.threads[j]) ==> s'.threads[j] == s.threads[j];
    assert Written(s') == Written(s);
  }

  lemma ArchiverStep(s: State)
    requires Inv(s) && Exact(s) && Enabled(s, Archive)
    ensures Exact(Next(s, Archive))
  {
    var s' := Next(s, Archive);
    if s.archiver.Await? {
      var w := FiredByAClear(s);
      assert Compares(s, s.threads[w]);
    }
    forall i | 0 <= i < |s.threads| && Handling(s.threads[i]) ensures Compares(s', s'.threads[i]) {
      assert Compares(s, s.threads[i]);
      Parity(s.threads, i);
    }
  }

  lemma SpawnOneAtMost(threads: seq<Thread>, t: Thread)
    requires OneAtMost(threads) && (Handling(t) ==> Idle(threads))
    ensures OneAtMost(threads + [t])
    ensures Idle(threads + [t]) <==> Idle(threads) && !Handling(t)
  {
    var all := threads + [t];
    forall i | 0 <= i < |threads| ensures all[i] == threads[i] {
    }
    if Idle(all) {
      assert !Handling(all[|threads|]);
      forall i | 0 <= i < |threads| ensures !Handling(threads[i]) { assert all[i] == threads[i]; }
    }
  }

  lemma SpawnStep(s: State, t: Thread)
    requires Exact(s) && Enabled(s, Spawn(t)) && (Handling(t) ==> Idle(s.threads))
    ensures Exact(Next(s, Spawn(t)))
  {
    var s' := Next(s, Spawn(t));
    SpawnOneAtMost(s.threads, t);
    forall i | 0 <= i < |s'.threads| && Handling(s'.threads[i]) ensures Compares(s', s'.threads[i]) {
      if i < |s.threads| {
        assert s'.threads[i] == s.threads[i] && Compares(s, s.threads[i]);
      }
    }
  }

  lemma ExactStep(s: State, c: Choice, s': State)
    requires Inv(s) && Exact(s) && Enabled(s, c) && s' == Next(s, c)
    requires c.Spawn? && Handling(c.thread) ==> Idle(s.threads)
    ensures Exact(s')
  {
    match c {
      case Spawn(t) => SpawnStep(s, t);
      case Archive => ArchiverStep(s);
      case Go(i, received) =>
        if Handling(s.threads[i]) {
          HandlerStep(s, i, received);
        } else {
          ReaderStep(s, i, received);
        }
    }
  }

  lemma ExactAtStart(s: State)
    requires Initial(s)
    ensures Exact(s)
  {
    assert s.threads == [];
  }

  lemma StepOfRun(states: seq<State>, choices: seq<Choice>, n: nat)
    requires Run(states, choices) && OneHandler(states, choices) && n < |choices|
    ensures Inv(states[n]) && Enabled(states[n], choices[n]) && states[n + 1] == Next(states[n], choices[n])
    ensures choices[n].Spawn? && Handling(choices[n].thread) ==> Idle(states[n].threads)
  {
    InvRun(states, choices, n);
    assert StepAt(states, choices, n);
  }

  lemma ExactNext(states: seq<State>, choices: seq<Choice>, n: nat, s: State, s': State)
    requires Run(states, choices) && OneHandler(states, choices) && n < |choices|
    requires s == states[n] && s' == states[n + 1] && Exact(s)
    ensures Exact(s')
  {
    StepOfRun(states, choices, n);
    ExactStep(s, choices[n], s');
  }

  lemma {:induction false} ExactRun(states: seq<State>, choices: seq<Choice>, n: nat, s: State)
    requires Run(states, choices) && OneHandler(states, choices) && n <= |choices| && s == states[n]
    ensures Exact(s)
  {
    if n == 0 {
      ExactAtStart(s);
    } else {
      var before := states[n - 1];
      ExactRun(states, choices, n - 1, before);
      ExactNext(states, choices, n - 1, before, s);
    }
  }

  /** What a clear erases is exactly the text archived for it, nothing is archived twice, and
      between clears the archive is the list of erased texts. */
  ghost predicate ArchiveIsErased(s: State) {
    && s.erased <= s.archive && |s.archive| <= |s.erased| + 1
    && (Sum(s.threads, Clearing) == 0 ==> s.archive == s.erased)
    && (forall i :: 0 <= i < |s.threads| && s.threads[i] == ClearErase ==> s.archive == s.erased + [CString(s.board)])
  }

  lemma ExactMeans(s: State)
    requires Exact(s)
    ensures ArchiveIsErased(s)
  {
    if !Idle(s.threads) {
      var i :| 0 <= i < |s.threads| && Handling(s.threads[i]);
      assert Compares(s, s.threads[i]);
      SumAtLeast(s.threads, i, Clearing);
    }
  }

  lemma ArchivedIsErased(states: seq<State>, choices: seq<Choice>, n: nat)
    requires Run(states, choices) && OneHandler(states, choices) && n <= |choices|
    ensures ArchiveIsErased(states[n])
  {
    ExactRun(states, choices, n, states[n]);
    ExactMeans(states[n]);
  }

  // ---------- any number of handlers ----------

  /** A step that gives the board a new text. */
  predicate Writes(s: State, c: Choice) {
    && c.Go? && c.i < |s.threads|
    && (s.threads[c.i].ClearErase? || s.threads[c.i].UpdateErase? || (s.threads[c.i].UpdateCopy? && c.received.Some?))
  }

  /** The step in which the archiver saves the board. */
  predicate Saves(s: State, c: Choice) { c.Archive? && s.archiver.Write? }

  /** The history agrees with the board and the archive. */
  ghost predicate HistoryOk(s: State) {
    && s.texts != [] && s.texts[Version(s)] == CString(s.board)
    && |s.saved| == |s.archive|
    && forall x :: 0 <= x < |s.saved| ==> s.saved[x] <= Version(s) && s.archive[x] == s.texts[s.saved[x]]
  }

  lemma HistoryStep(s: State, c: Choice)
    requires HistoryOk(s) && Enabled(s, c)
    ensures HistoryOk(Next(s, c))
    ensures s.texts <= Next(s, c).texts && Version(Next(s, c)) == Version(s) + if Writes(s, c) then 1 else 0
    ensures Next(s, c).saved == s.saved + if Saves(s, c) then [Version(s)] else []
  {
    match c {
      case Spawn(_) =>
      case Archive => HistoryArchive(s);
      case Go(i, received) => HistoryGo(s, i, received);
    }
  }

  lemma HistoryArchive(s: State)
    requires HistoryOk(s) && Enabled(s, Archive)
    ensures HistoryOk(Next(s, Archive))
    ensures Next(s, Archive).texts == s.texts
    ensures Next(s, Archive).saved == s.saved + if Saves(s, Archive) then [Version(s)] else []
  {
  }

  lemma HistoryPut(s: State, b: seq<Byte>)
    requires HistoryOk(s)
    ensures HistoryOk(Put(s, b)) && s.texts <= Put(s, b).texts && Version(Put(s, b)) == Version(s) + 1
  {
  }

  lemma HistoryGo(s: State, i: nat, received: Option<seq<Byte>>)
    requires HistoryOk(s) && Enabled(s, Go(i, received))
    ensures
      var c, s' := Go(i, received), Next(s, Go(i, received));
      && HistoryOk(s') && s.texts <= s'.texts && s'.saved == s.saved
      && Version(s') == Version(s) + if Writes(s, c) then 1 else 0
  {
    if s.threads[i].UpdateCopy? {
      if received.Some? { HistoryPut(s, Stored(received.value)); }
    } else {
      HistoryPut(s, BLANK);
    }
  }

  lemma {:induction false} HistoryRun(states: seq<State>, choices: seq<Choice>, n: nat)
    requires Run(states, choices) && n <= |choices|
    ensures HistoryOk(states[n])
  {
    if n > 0 {
      HistoryRun(states, choices, n - 1);
      assert StepAt(states, choices, n - 1);
      HistoryStep(states[n - 1], choices[n - 1]);
    }
  }

  /** What a step does to the history. */
  predicate Records(s: State, s': State, writes: bool, saves: bool) {
    && s.texts <= s'.texts
    && Version(s') == Version(s) + (if writes then 1 else 0)
    && s'.saved == s.saved + if saves then [Version(s)] else []
  }

  predicate RecordsAt(states: seq<State>, choices: seq<Choice>, i: nat)
    requires |states| == |choices| + 1 && i < |choices|
  {
    Records(states[i], states[i + 1], Writes(states[i], choices[i]), Saves(states[i], choices[i]))
  }

  ghost predicate Recorded(states: seq<State>, choices: seq<Choice>) {
    && |states| == |choices| + 1
    && states[0].saved == []
    && forall i: nat :: i < |choices| ==> RecordsAt(states, choices, i)
  }

  lemma RunsAreRecorded(states: seq<State>, choices: seq<Choice>)
    requires Run(states, choices)
    ensures Recorded(states, choices)
  {
    forall i: nat | i < |choices| ensures RecordsAt(states, choices, i) {
      HistoryRun(states, choices, i);
      assert StepAt(states, choices, i);
      HistoryStep(states[i], choices[i]);
    }
  }

  ghost predicate Untouched(states: seq<State>, choices: seq<Choice>, u: nat, w: nat)
    requires |states| == |choices| + 1 && w <= |choices|
  {
    forall k :: u <= k < w ==> !Writes(states[k], choices[k])
  }

  lemma UntouchedLater(states: seq<State>, choices: seq<Choice>, u: nat, w: nat)
    requires |states| == |choices| + 1 && u <= w < |choices|
    ensures Untouched(states, choices, u, w + 1) <==>
      Untouched(states, choices, u, w) && !Writes(states[w], choices[w])
  {
  }

  lemma VersionNext(states: seq<State>, choices: seq<Choice>, w: nat)
    requires Recorded(states, choices) && w < |choices|
    ensures Version(states[w + 1]) == Version(states[w]) + if Writes(states[w], choices[w]) then 1 else 0
    ensures states[w].texts <= states[w + 1].texts
  {
    assert RecordsAt(states, choices, w);
  }

  /** The version of the board stays exactly while nobody writes it. */
  lemma {:induction false} VersionStays(states: seq<State>, choices: seq<Choice>, u: nat, w: nat)
    requires Recorded(states, choices) && u <= w <= |choices|
    ensures Version(states[u]) <= Version(states[w]) && states[u].texts <= states[w].texts
    ensures Version(states[u]) == Version(states[w]) <==> Untouched(states, choices, u, w)
  {
    if u < w {
      VersionStays(states, choices, u, w - 1);
      VersionNext(states, choices, w - 1);
      UntouchedLater(states, choices, u, w - 1);
    }
  }

  /** `w` is a step before `n` in which the archiver saves version v. */
  ghost predicate SavesAt(states: seq<State>, choices: seq<Choice>, w: nat, n: nat, v: nat)
    requires |states| == |choices| + 1 && n <= |choices|
  {
    w < n && Saves(states[w], choices[w]) && Version(states[w]) == v
  }

  ghost predicate Saved(states: seq<State>, choices: seq<Choice>, n: nat, v: nat)
    requires |states| == |choices| + 1 && n <= |choices|
  {
    exists w: nat :: SavesAt(states, choices, w, n, v)
  }

  lemma SavedLater(states: seq<State>, choices: seq<Choice>, n: nat, v: nat)
    requires |states| == |choices| + 1 && n < |choices|
    ensures Saved(states, choices, n + 1, v) <==> Saved(states, choices, n, v) || SavesAt(states, choices, n, n + 1, v)
  {
    if Saved(states, choices, n, v) {
      var w: nat :| SavesAt(states, choices, w, n, v);
      assert SavesAt(states, choices, w, n + 1, v);
    }
    if Saved(states, choices, n + 1, v) {
      var w: nat :| SavesAt(states, choices, w, n + 1, v);
      assert w == n || SavesAt(states, choices, w, n, v);
    }
  }

  lemma {:induction false} SavedIff(states: seq<State>, choices: seq<Choice>, n: nat, v: nat)
    requires Recorded(states, choices) && n <= |choices|
    ensures v in states[n].saved <==> Saved(states, choices, n, v)
  {
    if n > 0 {
      SavedIff(states, choices, n - 1, v);
      SavedLater(states, choices, n - 1, v);
      assert RecordsAt(states, choices, n - 1);
    }
  }

  /** The archiver saves the board at a step from u on and before n, and nobody has written it
      between u and that step. */
  ghost predicate SavedBeforeWritten(states: seq<State>, choices: seq<Choice>, u: nat, n: nat)
    requires |states| == |choices| + 1 && n <= |choices|
  {
    exists w: nat :: u <= w < n && Saves(states[w], choices[w]) && Untouched(states, choices, u, w)
  }

  /** For any number of handlers: the text that a step stores is archived exactly if the archiver
      saves the board before the next step that writes it. */
  lemma StoredIsArchivedIff(states: seq<State>, choices: seq<Choice>, u: nat, n: nat)
    requires Run(states, choices) && u < n <= |choices| && Writes(states[u], choices[u])
    ensures
      var v := Version(states[u]) + 1;
      && v < |states[n].texts| && states[n].texts[v] == CString(states[u + 1].board)
      && (v in states[n].saved <==> SavedBeforeWritten(states, choices, u + 1, n))
      && (v in states[n].saved ==> CString(states[u + 1].board) in states[n].archive)
  {
    var v := Version(states[u]) + 1;
    RunsAreRecorded(states, choices);
    HistoryRun(states, choices, u + 1);
    HistoryRun(states, choices, n);
    VersionNext(states, choices, u);
    VersionStays(states, choices, u + 1, n);
    SavedIff(states, choices, n, v);
    SavedInTime(states, choices, u, n, v);
    if v in states[n].saved { SavedText(states[n], v); }
  }

  lemma SavedText(s: State, v: nat)
    requires HistoryOk(s) && v in s.saved
    ensures v < |s.texts| && s.texts[v] in s.archive
  {
    var x :| 0 <= x < |s.saved| && s.saved[x] == v;
    assert s.archive[x] == s.texts[v];
  }

  /** A version that starts with step u is the board's exactly from then on, while nobody writes. */
  lemma SavedVersion(states: seq<State>, choices: seq<Choice>, u: nat, w: nat, v: nat)
    requires Recorded(states, choices) && u < |choices| && w <= |choices|
    requires Version(states[u]) < v == Version(states[u + 1])
    ensures Version(states[w]) == v <==> u + 1 <= w && Untouched(states, choices, u + 1, w)
  {
    if w <= u {
      VersionStays(states, choices, w, u);
    } else {
      VersionStays(states, choices, u + 1, w);
    }
  }

  lemma SavedInTime(states: seq<State>, choices: seq<Choice>, u: nat, n: nat, v: nat)
    requires Recorded(states, choices) && u < n <= |choices|
    requires Version(states[u]) < v == Version(states[u + 1])
    ensures Saved(states, choices, n, v) <==> SavedBeforeWritten(states, choices, u + 1, n)
  {
    if Saved(states, choices, n, v) {
      var w: nat :| SavesAt(states, choices, w, n, v);
      SavedVersion(states, choices, u, w, v);
    }
    if SavedBeforeWritten(states, choices, u + 1, n) {
      var w: nat :| u + 1 <= w < n && Saves(states[w], choices[w]) && Untouched(states, choices, u + 1, w);
      SavedVersion(states, choices, u, w, v);
      assert SavesAt(states, choices, w, n, v);
    }
  }

  /** The archiver has saved the board before n, and nobody has written it since. */
  ghost predicate SavedSince(states: seq<State>, choices: seq<Choice>, n: nat)
    requires |states| == |choices| + 1 && n <= |choices|
  {
    exists w: nat :: w < n && Saves(states[w], choices[w]) && Untouched(states, choices, w, n)
  }

  /** For any number of handlers: what a step erases has been archived exactly if the archiver has
      saved the board since it was last written. */
  lemma ErasedIsArchivedIff(states: seq<State>, choices: seq<Choice>, n: nat)
    requires Run(states, choices) && n <= |choices|
    ensures Version(states[n]) in states[n].saved <==> SavedSince(states, choices, n)
    ensures SavedSince(states, choices, n) ==> CString(states[n].board) in states[n].archive
  {
    var v := Version(states[n]);
    RunsAreRecorded(states, choices);
    HistoryRun(states, choices, n);
    SavedIff(states, choices, n, v);
    SavedAndKept(states, choices, n, v);
    if v in states[n].saved { SavedText(states[n], v); }
  }

  lemma SavedAndKept(states: seq<State>, choices: seq<Choice>, n: nat, v: nat)
    requires Recorded(states, choices) && n <= |choices| && v == Version(states[n])
    ensures Saved(states, choices, n, v) <==> SavedSince(states, choices, n)
  {
    if Saved(states, choices, n, v) {
      var w: nat :| SavesAt(states, choices, w, n, v);
      VersionStays(states, choices, w, n);
    }
    if SavedSince(states, choices, n) {
      var w: nat :| w < n && Saves(states[w], choices[w]) && Untouched(states, choices, w, n);
      VersionStays(states, choices, w, n);
      assert SavesAt(states, choices, w, n, v);
    }
  }

  // ---------- what readers and the archiver see ----------

  /** A step that takes the text off the board. */
  predicate Looks(s: State, c: Choice) {
    Saves(s, c) || (c.Go? && c.i < |s.threads| && s.threads[c.i].ReadBoard?)
  }

  lemma NobodyCopies(s: State, c: Choice, j: nat)
    requires Inv(s) && Looks(s, c) && j < |s.threads|
    ensures !s.threads[j].UpdateCopy?
  {
    if c.Go? && c.i != j {
      HoldersAlone(s, c.i);
    } else if c.Archive? {
      SumAtLeast(s.threads, j, Holds);
    }
  }

  lemma {:induction false} LastWrite(states: seq<State>, choices: seq<Choice>, n: nat) returns (u: nat)
    requires |states| == |choices| + 1 && n <= |choices| && !Untouched(states, choices, 0, n)
    ensures u < n && Writes(states[u], choices[u]) && Untouched(states, choices, u + 1, n)
  {
    if Writes(states[n - 1], choices[n - 1]) {
      u := n - 1;
    } else {
      u := LastWrite(states, choices, n - 1);
    }
  }

  /** What a step does to the board. */
  predicate Leaves(s: State, c: Choice, b: seq<Byte>) {
    if !Writes(s, c) then b == s.board
    else if s.threads[c.i].UpdateCopy? then b == Stored(c.received.value)
    else b == BLANK
  }

  lemma BoardNext(states: seq<State>, choices: seq<Choice>, n: nat)
    requires Run(states, choices) && n < |choices|
    ensures Leaves(states[n], choices[n], states[n + 1].board)
  {
    assert StepAt(states, choices, n);
  }

  lemma {:induction false} BoardStays(states: seq<State>, choices: seq<Choice>, u: nat, n: nat)
    requires Run(states, choices) && u <= n <= |choices| && Untouched(states, choices, u, n)
    ensures states[n].board == states[u].board
  {
    if u < n {
      BoardStays(states, choices, u, n - 1);
      BoardNext(states, choices, n - 1);
    }
  }

  predicate CopiesAt(s: State, j: nat) { j < |s.threads| && s.threads[j].UpdateCopy? }

  lemma CopyNext(states: seq<State>, choices: seq<Choice>, k: nat, j: nat)
    requires Run(states, choices) && k < |choices| && !Writes(states[k], choices[k])
    requires CopiesAt(states[k], j) && !CopiesAt(states[k + 1], j)
    ensures choices[k] == Go(j, None)
  {
    assert StepAt(states, choices, k);
  }

  /** An update gets past its copying without writing only by a receive that brings nothing. */
  lemma {:induction false} CopyLeft(states: seq<State>, choices: seq<Choice>, u: nat, n: nat, j: nat) returns (k: nat)
    requires Run(states, choices) && u <= n <= |choices| && Untouched(states, choices, u, n)
    requires CopiesAt(states[u], j) && !CopiesAt(states[n], j)
    ensures u <= k < n && CopiesAt(states[k], j) && choices[k] == Go(j, None)
  {
    if CopiesAt(states[n - 1], j) {
      k := n - 1;
      CopyNext(states, choices, k, j);
    } else {
      k := CopyLeft(states, choices, u, n - 1, j);
    }
  }

  /** What the last write before a look was: a clear, the copying of an update, or an update whose
      receive brought nothing before the look. */
  predicate Settled(states: seq<State>, choices: seq<Choice>, u: nat, n: nat)
    requires |states| == |choices| + 1 && u < n < |choices| && Writes(states[u], choices[u])
  {
    && Leaves(states[u], choices[u], states[n].board)
    && (states[u].threads[choices[u].i].UpdateErase? ==> NothingCame(states, choices, u, n, choices[u].i))
  }

  predicate NothingCame(states: seq<State>, choices: seq<Choice>, u: nat, n: nat, j: nat)
    requires |states| == |choices| + 1 && n < |choices|
  {
    exists k :: u < k < n && CopiesAt(states[k], j) && choices[k] == Go(j, None)
  }

  lemma EraserCopies(states: seq<State>, choices: seq<Choice>, u: nat, j: nat)
    requires Run(states, choices) && u < |choices| && Writes(states[u], choices[u]) && j == choices[u].i
    requires states[u].threads[j].UpdateErase?
    ensures CopiesAt(states[u + 1], j)
  {
    assert StepAt(states, choices, u);
  }

  lemma WriteIsSettled(states: seq<State>, choices: seq<Choice>, u: nat, n: nat)
    requires Run(states, choices) && u < n < |choices| && Looks(states[n], choices[n])
    requires Writes(states[u], choices[u]) && Untouched(states, choices, u + 1, n)
    ensures Settled(states, choices, u, n)
  {
    BoardStays(states, choices, u + 1, n);
    BoardNext(states, choices, u);
    var j := choices[u].i;
    if states[u].threads[j].UpdateErase? {
      EraserCopies(states, choices, u, j);
      InvRun(states, choices, n);
      if CopiesAt(states[n], j) { NobodyCopies(states[n], choices[n], j); }
      var k := CopyLeft(states, choices, u + 1, n, j);
      assert NothingCame(states, choices, u, n, j);
    }
  }

  /** Readers and the archiver never see the board between the erasing and the copying of an update:
      what they see is the first board or what the last finished clear or update left. */
  lemma LooksAreSettled(states: seq<State>, choices: seq<Choice>, n: nat) returns (u: Option<nat>)
    requires Run(states, choices) && n < |choices| && Looks(states[n], choices[n])
    ensures u.None? ==> states[n].board == states[0].board
    ensures u.Some? ==> u.value < n && Writes(states[u.value], choices[u.value])
    ensures u.Some? ==> Untouched(states, choices, u.value + 1, n) && Settled(states, choices, u.value, n)
  {
    if Untouched(states, choices, 0, n) {
      u := None;
      BoardStays(states, choices, 0, n);
    } else {
      var w := LastWrite(states, choices, n);
      WriteIsSettled(states, choices, w, n);
      u := Some(w);
    }
  }
}
