/** The condition variable between trigger_broadcast and the broadcasting agent. */
module Trigger {
  import opened Protocol

  /** The agent holds the mutex except where it waits (or has not started), so the
      triggers can only run there. A signal that finds nobody waiting is lost. */
  datatype Agent = Starting | Waiting(signalled: bool) | Sending

  /** What has happened: a trigger, the agent's first wait, the start of a broadcast. */
  datatype Act = Triggered(kind: Broadcast) | Ready | Sent(kind: Broadcast)

  datatype State = State(agent: Agent, broadcastType: Broadcast, log: seq<Act>)

  const START := State(Starting, STATUS, [])

  ghost predicate TriggerStep(s: State, s': State, kind: Broadcast) {
    && !s.agent.Sending?
    && s' == State(if s.agent.Waiting? then Waiting(true) else s.agent, kind, s.log + [Triggered(kind)])
  }

  ghost predicate ReadyStep(s: State, s': State) {
    s.agent.Starting? && s' == s.(agent := Waiting(false), log := s.log + [Ready])
  }

  /** pthread_cond_wait() may also return without a signal. */
  ghost predicate WakeStep(s: State, s': State) {
    s.agent.Waiting? && s' == s.(agent := Sending, log := s.log + [Sent(s.broadcastType)])
  }

  ghost predicate SentStep(s: State, s': State) {
    s.agent.Sending? && s' == s.(agent := Waiting(false))
  }

  ghost predicate Step(s: State, s': State) {
    (exists kind :: TriggerStep(s, s', kind)) || ReadyStep(s, s') || WakeStep(s, s') || SentStep(s, s')
  }

  ghost predicate Run(states: seq<State>) {
    && states != []
    && states[0] == START
    && forall i {:trigger states[i]} :: 0 < i < |states| ==> Step(states[i - 1], states[i])
  }

  /** The kind of the last trigger in a log. */
  function LastKind(log: seq<Act>): Broadcast {
    if log == [] then STATUS
    else
      var last := log[|log| - 1];
      if last.Triggered? then last.kind else LastKind(log[..|log| - 1])
  }

  /** Whether there was a trigger that no broadcast, and not the first wait, came after. */
  predicate Outstanding(log: seq<Act>) {
    log != [] && log[|log| - 1].Triggered?
  }

  predicate Started(log: seq<Act>) {
    exists i :: 0 <= i < |log| && log[i].Ready?
  }

  ghost predicate Inv(s: State) {
    && s.broadcastType == LastKind(s.log)
    && (s.agent.Starting? <==> !Started(s.log))
    && (s.agent.Waiting? ==> (s.agent.signalled <==> Outstanding(s.log)))
    && (s.agent.Sending? ==> !Outstanding(s.log))
    && (forall i :: 0 <= i < |s.log| && s.log[i].Sent? ==> s.log[i].kind == LastKind(s.log[..i]))
    && (forall i :: 0 <= i < |s.log| && s.log[i].Ready? ==> !Started(s.log[..i]))
  }

  lemma LogStep(log: seq<Act>, act: Act)
    ensures LastKind(log + [act]) == if act.Triggered? then act.kind else LastKind(log)
    ensures Started(log + [act]) <==> Started(log) || act.Ready?
    ensures forall i :: 0 <= i <= |log| ==> (log + [act])[..i] == log[..i]
  {
    var log' := log + [act];
    assert log'[..|log|] == log;
    if Started(log) {
      var i :| 0 <= i < |log| && log[i].Ready?;
      assert log'[i].Ready?;
    }
    if act.Ready? {
      assert log'[|log|].Ready?;
    }
  }

  lemma InvStep(s: State, s': State)
    requires Inv(s) && Step(s, s')
    ensures Inv(s')
  {
    if s'.log != s.log {
      var act := s'.log[|s.log|];
      assert s'.log == s.log + [act];
      LogStep(s.log, act);
      assert s.log[..|s.log|] == s.log;
    }
  }

  lemma {:induction false} InvRun(states: seq<State>, n: nat)
    requires Run(states) && n < |states|
    ensures Inv(states[n])
  {
    if n > 0 {
      InvRun(states, n - 1);
      assert Step(states[n - 1], states[n]);
      InvStep(states[n - 1], states[n]);
    }
  }

  /** Every broadcast has the type of the last trigger before it, however many there were. */
  lemma BroadcastsLastKind(states: seq<State>, n: nat, i: nat)
    requires Run(states) && n < |states| && i < |states[n].log| && states[n].log[i].Sent?
    ensures states[n].log[i].kind == LastKind(states[n].log[..i])
  {
    InvRun(states, n);
  }

  /** Once the agent waits, it is signalled exactly while a trigger is outstanding: no trigger
      after its first wait is left without a later broadcast. */
  lemma WaitsForTriggers(states: seq<State>, n: nat)
    requires Run(states) && n < |states| && Started(states[n].log)
    ensures states[n].agent == Waiting(true) <==> Outstanding(states[n].log)
  {
    InvRun(states, n);
  }

  predicate QuietBetween(log: seq<Act>, i: nat, k: nat)
    requires k <= |log|
  {
    forall x :: i < x < k ==> !log[x].Triggered?
  }

  lemma {:induction false} LastTrigger(log: seq<Act>, i: nat, k: nat) returns (j: nat)
    requires i < k <= |log| && log[i].Triggered?
    ensures i <= j < k && log[j].Triggered? && QuietBetween(log, j, k)
    ensures LastKind(log[..k]) == log[j].kind
  {
    assert log[..k][..k - 1] == log[..k - 1];
    if log[k - 1].Triggered? {
      j := k - 1;
    } else {
      j := LastTrigger(log, i, k - 1);
    }
  }

  /** `k` is the first broadcast after i. */
  predicate NextSent(log: seq<Act>, i: nat, k: nat) {
    i < k < |log| && log[k].Sent? && forall x :: i < x < k ==> !log[x].Sent?
  }

  lemma {:induction false} FirstSent(log: seq<Act>, i: nat, n: nat) returns (k: nat)
    requires i < n < |log| && log[n].Sent?
    ensures NextSent(log, i, k) && k <= n
    decreases n
  {
    k := n;
    if x :| i < x < n && log[x].Sent? {
      k := FirstSent(log, i, x);
    }
  }

  /** When the agent waits unsignalled, every trigger since its first wait has been followed by a
      broadcast. The first one has the kind of that trigger exactly if the last trigger before the
      broadcast has. */
  lemma AnsweredIff(states: seq<State>, n: nat, i: nat) returns (k: nat, j: nat)
    requires Run(states) && n < |states| && states[n].agent == Waiting(false)
    requires i < |states[n].log| && states[n].log[i].Triggered? && Started(states[n].log[..i])
    ensures
      var log := states[n].log;
      && NextSent(log, i, k)
      && i <= j < k && log[j].Triggered? && QuietBetween(log, j, k)
      && (log[k].kind == log[i].kind <==> log[j].kind == log[i].kind)
  {
    var log := states[n].log;
    InvRun(states, n);
    LastIsSent(log, i);
    k := FirstSent(log, i, |log| - 1);
    BroadcastsLastKind(states, n, k);
    j := LastTrigger(log, i, k);
  }

  lemma LastIsSent(log: seq<Act>, i: nat)
    requires i < |log| && log[i].Triggered? && Started(log[..i]) && !Outstanding(log)
    requires forall x :: 0 <= x < |log| && log[x].Ready? ==> !Started(log[..x])
    ensures i < |log| - 1 && log[|log| - 1].Sent?
  {
    var last := |log| - 1;
    var x :| 0 <= x < i && log[..i][x].Ready?;
    assert log[..last][x].Ready?;
  }

  /** Every kind of trigger can be lost to every other: a status to a board, and a board to a
      status, which leaves the boards of all clients as they were. */
  lemma TriggerCanBeLost(lost: Broadcast, sent: Broadcast) returns (states: seq<State>)
    requires lost != sent
    ensures Run(states)
    ensures var s := states[|states| - 1];
      s.agent == Waiting(false) && s.log == [Ready, Triggered(lost), Triggered(sent), Sent(sent)]
  {
    var s1 := State(Waiting(false), STATUS, [Ready]);
    var s2 := State(Waiting(true), lost, s1.log + [Triggered(lost)]);
    var s3 := State(Waiting(true), sent, s2.log + [Triggered(sent)]);
    var s4 := State(Sending, sent, s3.log + [Sent(sent)]);
    var s5 := s4.(agent := Waiting(false));
    assert TriggerStep(s1, s2, lost) && TriggerStep(s2, s3, sent);
    states := [START, s1, s2, s3, s4, s5];
  }
}
