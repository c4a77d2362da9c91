/**
 Whom the handlers of src/server/message_handler.c write to, what they trigger, and which clients
 they kick: laws over every state of the client threads and every message.
 */
module HandlerLaws {
  import opened Commons
  import opened Protocol
  import opened Permissions
  import opened Runs
  import opened RunSafety
  import opened ClientThread

  // ---------- requests and replies ----------

  predicate AsksOrAnswers(e: Event) { e.Request? || e.Reply? }

  function EffectOf(s: System, e: Event): Effect
    requires AsksOrAnswers(e)
  {
    if e.Request? then Requested(s.list, e.sfd, e.write, e.delivered).1 else Replied(s.list, e.sfd, e.write, e.cid).1
  }

  /** Client c is not the docent, there is one, and c wants a right that it does not have. */
  predicate AsksDocent(l: ListState, c: Client, e: Event) {
    && e.Request? && e.write != 0 && l.docent.Some? && l.docent != Some(c)
    && (e.write == 1 ==> l.writer != Some(c))
  }

  /** The docent c asks for what it does not have: the right, or to be rid of it. */
  predicate Revokes(l: ListState, c: Client, e: Event) {
    e.Request? && l.docent == Some(c) && if l.writer == Some(c) then e.write != 1 else e.write != 0
  }

  predicate Denies(l: ListState, c: Client, e: Event) {
    e.Reply? && l.docent == Some(c) && e.write == 0
  }

  /** The docent c says yes to the client that has the right already. */
  predicate GrantsAgain(l: ListState, c: Client, e: Event) {
    e.Reply? && l.docent == Some(c) && e.write != 0 && l.writer.Some? && l.writer.value.cid == e.cid
  }

  /** The send that a query, a revocation or a denial is. */
  ghost predicate Expected(l: ListState, c: Client, e: Event, to: int, m: ServerMessage) {
    || (AsksDocent(l, c, e) && m == Query(c.cid, c.name) && to == l.docent.value.sfd)
    || (Revokes(l, c, e) && l.writer.Some? && m == Error(E_MESSAGE, REVOKED) && to == l.writer.value.sfd)
    || (Denies(l, c, e) && m == Error(E_MESSAGE, DENIED) && exists d <- l.clients :: d.cid == e.cid && d.sfd == to)
  }

  lemma RequestSends(s: System, e: Event, c: Client, to: int, m: ServerMessage)
    requires Inv(s) && Enabled(s, e) && e.Request? && EffectOf(s, e).Effect?
    requires c in s.list.clients && c.sfd == e.sfd
    ensures Send(to, m) in EffectOf(s, e).sends <==> Expected(s.list, c, e, to, m)
    ensures |EffectOf(s, e).sends| <= 1
  {
    AccessIsWriting(s.list, c);
  }

  lemma ReplySends(s: System, e: Event, c: Client, to: int, m: ServerMessage)
    requires Inv(s) && Enabled(s, e) && e.Reply? && EffectOf(s, e).Effect?
    requires c in s.list.clients && c.sfd == e.sfd
    ensures Send(to, m) in EffectOf(s, e).sends <==> Expected(s.list, c, e, to, m)
    ensures |EffectOf(s, e).sends| <= 1
  {
    AccessIsWriting(s.list, c);
    AnsweredClient(s, e.cid, to);
  }

  lemma AnsweredClient(s: System, cid: Word, to: int)
    requires Inv(s)
    ensures (exists d <- s.list.clients :: d.cid == cid && d.sfd == to) <==>
      FindCid(s.list.clients, cid).Some? && FindCid(s.list.clients, cid).value.sfd == to
  {
    var k := IndexOfCid(s.list.clients, cid);
    if k < |s.list.clients| { assert s.list.clients[k] in s.list.clients; }
    if d :| d in s.list.clients && d.cid == cid && d.sfd == to { IdFindsItsOwner(s, d); }
  }

  /** What a handler sends, and to whom, in any state: a query for the asking client to the docent,
      the revocation to the writer before the step, the denial to the client with the answered id. */
  lemma SendLaw(s: System, e: Event, c: Client, to: int, m: ServerMessage)
    requires Inv(s) && Enabled(s, e) && AsksOrAnswers(e) && EffectOf(s, e).Effect?
    requires c in s.list.clients && c.sfd == e.sfd
    ensures Send(to, m) in EffectOf(s, e).sends <==> Expected(s.list, c, e, to, m)
    ensures |EffectOf(s, e).sends| <= 1
  {
    if e.Request? { RequestSends(s, e, c, to, m); } else { ReplySends(s, e, c, to, m); }
  }

  /** A status is triggered exactly when the right moves, when the docent takes or drops the right
      it has, and when it grants what is granted; nothing else is triggered. */
  lemma TriggerLaw(s: System, e: Event, c: Client)
    requires Inv(s) && Enabled(s, e) && AsksOrAnswers(e) && EffectOf(s, e).Effect?
    requires c in s.list.clients && c.sfd == e.sfd
    ensures
      var effect := EffectOf(s, e);
      && (effect.trigger == Some(STATUS) <==>
            Next(s, e).list.writer != s.list.writer || Revokes(s.list, c, e) || GrantsAgain(s.list, c, e))
      && (effect.trigger != None ==> effect.trigger == Some(STATUS))
      && !effect.interrupt
  {
    AccessIsWriting(s.list, c);
    RightMovesIff(s, e);
    if e.Request? {
      HandledPhases(s, e.sfd, Requested(s.list, e.sfd, e.write, e.delivered));
    } else {
      HandledPhases(s, e.sfd, Replied(s.list, e.sfd, e.write, e.cid));
      GrantedAgain(s, c, e);
    }
  }

  lemma GrantedAgain(s: System, c: Client, e: Event)
    requires Inv(s) && e.Reply?
    ensures GrantsAgain(s.list, c, e) <==>
      && s.list.docent == Some(c) && e.write != 0
      && s.list.writer.Some? && FindCid(s.list.clients, e.cid) == s.list.writer
  {
    if s.list.writer.Some? && s.list.writer.value.cid == e.cid { IdFindsItsOwner(s, s.list.writer.value); }
  }

  /** A thread leaves its loop exactly if its query could not be delivered, or it answers a query
      without being the docent. */
  lemma LoopLaw(s: System, e: Event, c: Client)
    requires Inv(s) && Enabled(s, e) && AsksOrAnswers(e) && EffectOf(s, e).Effect?
    requires c in s.list.clients && c.sfd == e.sfd
    ensures
      var out := if e.Request? then AsksDocent(s.list, c, e) && !e.delivered else s.list.docent != Some(c);
      && EffectOf(s, e).ret == (if out then -1 else 0)
      && At(Next(s, e), e.sfd, if out then Leaving else Serving)
  {
    AccessIsWriting(s.list, c);
  }

  // ---------- all messages ----------

  /** An update or a clear that reaches the board as it should. */
  predicate Writes(l: ListState, c: Client, m: Incoming) {
    && l.writer == Some(c)
    && (m == Clear(0) || (m.BoardUpdate? && (m.length > 0 ==> m.brought.Some?)))
  }

  /** Whom the server throws out: for a message it does not know, one only the docent may send, a clear
      with a payload, a receive that failed, or a query that could not be delivered. */
  predicate Kicked(l: ListState, c: Client, m: Incoming) {
    match m
    case BoardUpdate(length, brought, _) => l.writer == Some(c) && length > 0 && brought.None?
    case Clear(length) => length > 0
    case WriteRequest(None, _) => true
    case WriteRequest(Some(write), delivered) => AsksDocent(l, c, Request(c.sfd, write, delivered)) && !delivered
    case WriteReply(reply) => reply.None? || l.docent != Some(c)
    case Shutdown => l.docent != Some(c)
    case Unknown => true
  }

  lemma AnswerLaw(s: System, b: seq<Byte>, c: Client, m: Incoming)
    requires Inv(s) && !s.crashed && At(s, c.sfd, Serving) && c in s.list.clients
    requires (m.WriteRequest? && m.write.Some?) || (m.WriteReply? && m.reply.Some?)
    requires Handle(s.list, b, c.sfd, m).effect.Effect?
    ensures
      var effect := Handle(s.list, b, c.sfd, m).effect;
      && effect.ret == (if Kicked(s.list, c, m) then -1 else 0) && !effect.interrupt
      && effect.trigger in {None, Some(STATUS)} && Handle(s.list, b, c.sfd, m).board == b
  {
    var e := if m.WriteRequest? then Request(c.sfd, m.write.value, m.delivered)
             else Reply(c.sfd, m.reply.value.0, m.reply.value.1);
    LoopLaw(s, e, c);
    TriggerLaw(s, e, c);
  }

  /** What becomes of any message of a client in its loop: who is kicked, who interrupts the server,
      and which board messages are broadcast as what. */
  lemma MessageLaw(s: System, b: seq<Byte>, c: Client, m: Incoming)
    requires Inv(s) && !s.crashed && At(s, c.sfd, Serving) && c in s.list.clients
    requires Handle(s.list, b, c.sfd, m).effect.Effect?
    ensures
      var l, effect := s.list, Handle(s.list, b, c.sfd, m).effect;
      && effect.ret == (if Kicked(l, c, m) then -1 else 0)
      && (effect.interrupt <==> m.Shutdown? && l.docent == Some(c))
      && (effect.trigger == Some(CLEAR) <==> Writes(l, c, m) && m.Clear?)
      && (effect.trigger == Some(BLACKBOARD) <==> Writes(l, c, m) && m.BoardUpdate?)
      && (effect.sends != [] ==> m.WriteRequest? || m.WriteReply?)
  {
    AccessIsWriting(s.list, c);
    if (m.WriteRequest? && m.write.Some?) || (m.WriteReply? && m.reply.Some?) { AnswerLaw(s, b, c, m); }
  }

  /** What a thread has done at the end begins with what it had done before, and goes on with what
      its first message made it do. */
  lemma {:induction false} LifeGoesOn(l: ListState, b: seq<Byte>, sfd: int, inbox: seq<Incoming>, done: seq<Effect>)
    ensures
      var life := Served(l, b, sfd, inbox, done);
      && |done| < |life.effects| && done <= life.effects
      && (inbox != [] ==> life.effects[|done|] == Handle(l, b, sfd, inbox[0]).effect)
    decreases |inbox|
  {
    if inbox != [] {
      var o := Handle(l, b, sfd, inbox[0]);
      if o.effect.Effect? && o.effect.ret >= 0 {
        LifeGoesOn(o.list, o.board, sfd, inbox[1..], done + [o.effect]);
      }
    }
  }
}
