/** Which messages of the handlers arrive as they were sent. */
module Delivery {
  import opened Commons
  import opened Protocol
  import opened Permissions
  import opened Wire

  /** Names are C strings. */
  predicate NamesAreStrings(clients: seq<Client>) {
    forall c <- clients :: 0 !in c.name
  }

  /** The docent's listener has room for the question. */
  predicate QuestionFits(m: ServerMessage) {
    m.Query? ==> 62 + |m.name| + Digits(m.asker) < 1024
  }

  lemma TextsAreSendable()
    ensures Sendable(Error(E_MESSAGE, REVOKED)) && Sendable(Error(E_MESSAGE, DENIED))
  {
    PrintableHasNoZero("Your write access was revoked by the docent.");
    PrintableHasNoZero("Request denied by docent");
    DisplayLengths(Error(E_MESSAGE, REVOKED));
    DisplayLengths(Error(E_MESSAGE, DENIED));
  }

  /** A handler sends one of its two errors, or a query for a listed client. */
  predicate FromHandler(clients: seq<Client>, m: ServerMessage) {
    || m == Error(E_MESSAGE, REVOKED)
    || m == Error(E_MESSAGE, DENIED)
    || (m.Query? && exists c <- clients :: m == Query(c.cid, c.name))
  }

  lemma RequestSends(l: ListState, sfd: int, write: Byte, delivered: bool)
    ensures var effect := Requested(l, sfd, write, delivered).1;
      effect.Effect? ==> forall send <- effect.sends :: FromHandler(l.clients, send.message)
  {
    var k := IndexOfSfd(l.clients, sfd);
    if k < |l.clients| {
      assert l.clients[k] in l.clients;
    }
  }

  lemma ReplySends(l: ListState, sfd: int, write: Byte, cid: Word)
    ensures var effect := Replied(l, sfd, write, cid).1;
      effect.Effect? ==> forall send <- effect.sends :: FromHandler(l.clients, send.message)
  {
  }

  lemma HandlerSendable(clients: seq<Client>, m: ServerMessage)
    requires NamesAreStrings(clients) && FromHandler(clients, m)
    ensures Sendable(m) <==> QuestionFits(m)
  {
    TextsAreSendable();
    DisplayLengths(m);
  }

  /** Whatever a request or a reply makes the server send is read by the listener as the same
      message, exactly unless it is a query whose question is too long for the listener. */
  lemma HandlersAreUnderstood(
    l: ListState, sfd: int, write: Byte, delivered: bool, cid: Word, effect: Effect, send: Send)
    requires NamesAreStrings(l.clients)
    requires effect == Requested(l, sfd, write, delivered).1 || effect == Replied(l, sfd, write, cid).1
    requires effect.Effect? && send in effect.sends
    ensures Decode(Encode(send.message)) == [send.message] <==> QuestionFits(send.message)
  {
    RequestSends(l, sfd, write, delivered);
    ReplySends(l, sfd, write, cid);
    HandlerSendable(l.clients, send.message);
    OneMessage(send.message);
  }
}
