# Verified model of the blackboard server and client

The repository is an electronic blackboard: clients log in to a server, one of them at a time may
write, the server passes the board on to the others, and an archiver process saves the board each time
it is cleared. This project models the parts of it that hold state and loops, and proves what they keep.

| files | what they model |
|---|---|
| `ClientList.dfy`, `Permissions.dfy` | the linked client list with `user_docent` and `user_write`, on the heap and as values |
| `Handlers.dfy`, `ClientThread.dfy` | the login, board, request, reply and shutdown handlers and the message loop of a client thread |
| `HandlerLaws.dfy` | whom the handlers write to, what they trigger, and whom they kick, for every state and message |
| `Runs.dfy`, `RunSafety.dfy` | all client threads interleaved, one step per locked section and per unlocked look at the writer, and the safety of every run |
| `Blackboard.dfy`, `Handshake.dfy`, `ArchiveText.dfy` | the shared board, and the two semaphores between clears, updates, readers and the archiver |
| `BoardRuns.dfy`, `BoardSafety.dfy` | the client threads and those semaphores together: who writes the board while the right moves |
| `Protocol.dfy`, `Wire.dfy`, `Delivery.dfy` | message encoders, the client's listener, the login message |
| `Broadcasting.dfy`, `BroadcastLaws.dfy`, `Trigger.dfy` | the agent's turn with its two broadcasts, what each client gets of them, and the condition variable that starts them |
| `Utf8.dfy`, `InsertText.dfy`, `InsertBounds.dfy`, `InsertExact.dfy`, `TextBuffer.dfy` | how much of a typed or pasted text the client lets into the board |
| `BoardViews.dfy`, `BoardOrder.dfy`, `BoardDelivery.dfy` | what logins and broadcasts read of the board, in which order they send it, and exactly which boards each client is sent |
| `ReaderView.dfy` | which updates stay valid text on the server, and which boards a reader is shown |

`dafny verify dfyconfig.toml` checks everything.

## What is proved, and what turned out false

- **Write permission.** An answer to a query, however late, is about the client that asked, or about nobody if that has
  left (`AnswerMeansAsker`). While a docent is logged in, anybody else who may write was named in a yes of this
  docent, and docent and writer have not changed since. Without a docent a writer loses the right only by
  giving it back or logging out.
- **At most one docent** is false of the code: `login_handler` asks for a docent and adds the client under
  different locks (`LoginRace`). A run has at most one docent at all times exactly if no client is added as
  docent while there is one (`OneDocentIff`); holding the lock across both is enough (`SerialLoginsOneDocent`).
- **NULL pointers.** The server follows one exactly when a docent denies a request of a client that has left,
  or when the writer leaves or releases the right to nobody while another thread is between the two unlocked
  looks of `board_handler`'s check (`CrashLaw`, `LateDenial`, `WriterGoneBetweenLooks`, `NullAtSecondLook`);
  `remove_client` and the docent's own request never do.
- **Only the writer changes the board** is false of the code, because the right can move between the check and
  the write (`UpdateLost`). In every run, whoever writes the board was the writer at its check; it has been since
  exactly if the right has not moved, and it is so at the write exactly if the right has not moved or came back
  to it last (`BoardSafety.BoardIsTheWriters`, `RightComesBack`). The steps that move it are listed by
  `RightMovesIff`.
- **Archive.** The archiver's semaphore stays in 0..2 and counts; no reachable state is stuck; without new
  threads every run ends with one archived text per clear, and at any time there are at least as many archived as
  erased texts (`EachClearIsArchived`). **A clear erases what was archived for it** is false
  of the code: `UpdateLost` is a run of all threads in which a docent's update is erased without having been
  archived. For any number of handlers a stored text is archived exactly if the archiver saves the board before
  the next write (`StoredIsArchivedIff`). Two handlers are inside together only if the right was taken from one of
  them there (`TwoInside`), so in every run where that does not happen archived and erased texts agree
  (`BoardSafety.ArchivedIsErased`).
- **Insert.** The accepted prefix is the longest one that ends between two characters, keeps every row within the
  column limit and takes no more rows than are free, for every content and cursor (`AcceptedIsLongest`). Lines of at most 80 bytes stay so
  exactly under the condition of `LinesKeptIff`; a paste in the middle of a line can break the bound even if
  no newline gets in (`MidLinePaste`). The board gets a 16th row exactly under the condition of `RowsKeptIff`.
- **Reading.** **What is valid text at the writer stays valid on the board** is false of the code: the server cuts an
  update at 1199 bytes wherever that is. It stays valid exactly if the cut is not inside a character (`CutIsUtf8Iff`,
  for whole runs `BoardUtf8Iff`); otherwise GTK refuses the board and the readers see nothing (`UpdateSeenIff`,
  with the board of `LostToAllReaders`). A valid board is cut by the insert handler; it is shown whole exactly if its
  lines have the lengths of `ShownIff`. A line of 80 bytes and a newline is not (`FullLineIsCut`).
- **Messages and broadcasts.** A query goes to the docent and names the asker, a revocation to the writer, a denial to the
  asker (`SendLaw`); every step that moves the right triggers a status (`TriggerLaw`). A status broadcast tells every
  client the truth about itself and the counts (`StatusLaw`). A clear reaches everybody, an update everybody but the
  writer (`ClearReachesAll`, `UpdateReachesOthers`). Over whole runs a client is sent the board of its login and every
  broadcast but those at whose sending it has the right (`GotSince`). So **a writer has seen the board it writes on** is
  false of the code: one that gets the right between an update and its broadcast is left out (`NewWriterIsLeftOut`).
- **Order of boards.** Nobody reads or archives the board inside an update (`LooksAreSettled`). **A client's last board
  is its newest** is false of the code: a login sends what it has read after it has let go of the board, so a broadcast
  can overtake it (`OldBoardLast`). The second of two boards is the older one exactly if it was read first and the
  board was written in between; then one of the two is the login's (`StaleIff`).
- **Wire.** A sequence of messages arrives as sent exactly if each text has no zero byte, each length fits 16
  bits, and the listener's fixed buffers have room for the texts it shows (`RoundTripIff`). A query has room
  exactly if 62 bytes, the name and the digits of the id are less than 1024 (`LoginNameInQuery`), while names of up
  to 65534 bytes can log in.
- **Broadcasts.** Every trigger after the agent's first wait is followed by a broadcast, which has the trigger's type
  exactly if the last trigger before it has (`AnsweredIff`). So any trigger can be lost to one of another type, also a
  board to a status (`TriggerCanBeLost`).

## Conventions

- `user_docent` and `user_write` are compared as pointers in the code. As values they are clients, which is
  the same as long as ids are distinct; that is part of the invariant of every run.
- The threads of a run have different descriptors. The code does not ensure that: `login_thread` passes every
  thread the address of the same variable (`src/server/login_thread.c:77`), so two threads can read the same one.
- A crash of the server ends a run.
- What a socket delivers is a parameter: whether a send succeeds, what a receive brings, `None` for a failed
  receive, and for a closed one where the code treats it the same, as in requests and replies. In an update it does not:
  the handler goes on with what `malloc` left behind the received bytes, which is a parameter too. `Crash` stands for
  following a NULL pointer.
- `gtk_text_buffer_insert` takes valid UTF-8 without zero bytes and ignores anything else.
- `g_utf8_strlen` counts characters by walking from lead byte to lead byte, each as long as its lead byte says;
  a byte that leads no character counts for one, and a last character that is cut off is not counted.
- The LaTeX documentation lists other role and message numbers, a name field of 25 bytes and a limit of 1200
  characters for updates; the model follows the code (`src/commons.h`, `src/net_message.h`, `src/server/message_handler.c`).

## Model

| member | source | states |
|---|---|---|
| ClientLists.ClientList.constructor | src/server/client_list.c:10-28 | the list starts empty, both pointers NULL, no id handed out |
| ClientLists.ClientList.AddClient | src/server/client_list.c:47-83 | the new entry is appended behind all old ones, which keep their places; a docent also gets both pointers |
| ClientLists.ClientList.Append | src/server/client_list.c:62-74 | linking in at the end keeps next and previous mirroring each other along the sequence of entries |
| ClientLists.ClientList.Unlink | src/server/client_list.c:102-114 | unlinking any position, also the first, last or only one, keeps the mirroring and the order of the rest |
| ClientLists.ClientList.TakeOut | src/server/client_list.c:102-130 | the removed writer's right falls to the docent, to nobody if it was the docent; no pointer to the removed entry is left |
| ClientLists.ClientList.FindForRemoval | src/server/client_list.c:96-100 | finds the first entry with the descriptor; the test for a missing one is never reached |
| ClientLists.ClientList.RemoveClient | src/server/client_list.c:90-136 | exactly the first entry with the descriptor is gone, order and all other entries are kept, and with distinct ids the values are those of Removed |
| ClientLists.ClientList.DocentExists | src/server/client_list.c:144-150 | 1 exactly if a docent is pointed to |
| ClientLists.ClientList.TutorExists | src/server/client_list.c:158-164 | 1 exactly if somebody other than the docent is the writer |
| ClientLists.ClientList.SetWriteUser | src/server/client_list.c:179-181 | only the writer changes |
| ClientLists.ClientList.GetUserSfd | src/server/client_list.c:199-209 | the first entry with the descriptor, NULL exactly if there is none |
| ClientLists.ClientList.GetUserCid | src/server/client_list.c:216-226 | the first entry with the id, NULL exactly if there is none |
| ClientLists.ClientList.HasWriteAccess | src/server/client_list.c:233-241 | 1 exactly if the writer has this descriptor |
| ClientLists.ClientList.IsDocent | src/server/client_list.c:249-257 | 1 exactly if the docent has this descriptor |
| ClientLists.ClientList.GetNextCid | src/server/client_list.c:263-277 | the 16-bit wrap-around and its correction give counter + 1, and 0 with the counter kept once 65535 is used up |
| ClientLists.ClientList.GetClientCount | src/server/client_list.c:282-284 | the counter is the length of the list |
| ClientLists.ClientList.StartIteration | src/server/client_list.c:291-295 | the iteration starts at the first entry, NULL for an empty list |
| ClientLists.ClientList.IterationNext | src/server/client_list.c:302-305 | from position k the iteration goes to k + 1 and ends after the last |
| ClientLists.ClientList.EndIteration | src/server/client_list.c:311-314 | the iterator is NULL between iterations |
| Handlers.DecideRole | src/server/message_handler.c:150-170 | who asks for docent or for any role becomes docent exactly if there is none; every other value gives a student |
| Handlers.AskForAccess | src/server/message_handler.c:373-415 | without a docent a free right goes to the requester and a taken one stays; with one the docent gets a query |
| Handlers.RequestHandler | src/server/message_handler.c:309-419 | list, return value, messages and status trigger of every branch of a request, also of a failed receive |
| Handlers.ReplyHandler | src/server/message_handler.c:424-499 | list, return value, messages and trigger of every branch of a reply, with the failed receive and the crash on denying a missing client |
| ClientThread.LoginHandler | src/server/message_handler.c:29-202 | an uninterrupted login: nothing changes on a bad message; else the next id, the decided role, the appended client and the current board, or the refusal when ids have run out |
| ClientThread.LoginIsARun | src/server/message_handler.c:112-173 | the three steps of a login in the machine, taken in a row, have the effect of LoginHandler |
| ClientThread.WillingClientsLead | src/server/message_handler.c:141-173 | after an uninterrupted login a client that asked for docent or any role is docent and writer if there was no docent; any other login makes a student and moves no right |
| ClientThread.BoardHandler | src/server/message_handler.c:212-301 | uninterrupted: only the writer's message changes the board, to the stored text or to blank for a clear, an empty or a failed update, and triggers the broadcast of its type unless the receive failed |
| ClientThread.ShutdownHandler | src/server/message_handler.c:505-525 | the docent interrupts the process group, everybody else is kicked |
| ClientThread.Dispatch | src/server/client_thread.c:47-72 | each message type goes to its handler; a clear with a payload and an unknown type end the thread |
| ClientThread.ServeAll | src/server/client_thread.c:35-78 | messages are handled in order, with all their effects, up to the first negative result or crash |
| ClientThread.ClientHandler | src/server/client_thread.c:35-84 | after the loop the thread's client is removed from the list and a status is triggered, whatever it was sent |
| ClientThread.ServedIsARun | src/server/client_thread.c:35-84 | the whole life of a thread after login is a run of its own events in the step machine, ending without the thread or in the crash |
| ClientThread.ServedLeavesOthers | src/server/client_thread.c:80-84 | however a thread ends without a crash, the other clients and their order are untouched and the last thing it does is to trigger a status |
| ClientThread.BoardUninterrupted | src/server/message_handler.c:216-290 | a message whose handler nobody interrupts changes the board only if its sender is the writer; then the board shows the text in the receive buffer cut to 1199 bytes, or nothing; a connection closed inside an update leaves malloc's bytes behind the received ones |
| HandlerLaws.SendLaw | src/server/message_handler.c:347-480 | in any state, a request or reply sends a query for the asking client exactly to the docent, the revocation exactly to the writer before the step, the denial exactly to the client with the answered id, and nothing else |
| HandlerLaws.TriggerLaw | src/server/message_handler.c:366-496 | a status is triggered exactly when the right moves, the docent takes or drops the right it has, or grants what is granted |
| HandlerLaws.LoopLaw | src/server/message_handler.c:405-458 | a thread leaves its loop exactly if its query could not be delivered or it answers without being the docent |
| HandlerLaws.MessageLaw | src/server/client_thread.c:47-77 | for any message of any listed client: exactly who is kicked, who interrupts the server, and which board messages trigger which broadcast |
| HandlerLaws.LifeGoesOn | src/server/client_thread.c:35-78 | no effect of an earlier message is lost or reordered |
| Runs.InvStep | src/server/client_list.c:47-136 | every step of every thread keeps: distinct non-zero ids, distinct descriptors, listed clients are the threads in their loop, both pointers NULL or listed, a docent implies a writer |
| Runs.InvRun | src/server/client_thread.c:17-85 | that invariant holds in every reachable state of any number of interleaved threads |
| RunSafety.OneDocentIff | src/server/message_handler.c:150-173 | a run has at most one docent, the one pointed to, in all states exactly if no client is added as docent while there is one |
| RunSafety.SerialLoginsOneDocent | src/server/message_handler.c:150-173 | if every client is added right after its role was decided, there is never more than one docent |
| RunSafety.LoginRace | src/server/message_handler.c:150-173 | two interleaved logins that both become docent |
| RunSafety.GainLaw | src/server/message_handler.c:345-415 | a client gains the right only as docent, by the docent's yes to its id, or by its own request while there is neither docent nor writer |
| RunSafety.LossLaw | src/server/message_handler.c:345-415 | a client loses the right only by giving it up, leaving, a docent's login, or the docent's own request or yes |
| RunSafety.WriterWasGranted | src/server/message_handler.c:453-496 | in every run, a writer other than the docent was named in a yes of this docent, and both have stayed what they are since |
| RunSafety.AnswerMeansAsker | src/server/message_handler.c:395-496 | the docent's answer to an id that was in the list, at any later time: a yes makes exactly that client the writer and does nothing if it has left, a no changes no writer and crashes the server exactly if it has left |
| RunSafety.WriterKeepsWithoutDocent | src/server/message_handler.c:367-393 | over any stretch of a run without a docent, a writer that lost the right gave it back or logged out |
| RunSafety.RightMovesIff | src/server/message_handler.c:338-490 | the writer changes exactly when a docent enters, the writer leaves, a writer that is not the docent releases, the docent takes the right back or gives it to another listed client, or somebody takes the free right |
| RunSafety.MovesAway | src/server/message_handler.c:347-492 | whenever the right moves, the client that had it has it no more |
| RunSafety.CrashLaw | src/server/message_handler.c:462-488 | a step follows a NULL pointer exactly if the docent denies an id that is not in the list, or there is no writer at the second look of the check |
| RunSafety.LateDenial | src/server/message_handler.c:462-480 | a run in which the requester leaves before the docent denies, and the server crashes |
| RunSafety.WriterGoneBetweenLooks | src/server/client_list.c:233-241 | a run in which the writer leaves between the two looks of a student's check, and the server crashes |
| RunSafety.NullAtSecondLook | src/server/client_list.c:116-123 | in every run that crashes there, the first look found a writer, and in between a writer left or released without a docent to get the right |
| RunSafety.CounterCounts | src/server/client_list.c:263-277 | the id counter is the number of connections, up to 65535 |
| RunSafety.IdsInOrder | src/server/message_handler.c:112-135 | in every run the k-th connection gets id k up to 65535, every later one is turned away |
| RunSafety.DepartedStaysAway | src/server/message_handler.c:460-491 | a client that left never comes back nor does its id, so a yes naming it changes nothing |
| RunSafety.IdFindsItsOwner | src/server/client_list.c:216-226 | in every reachable list the search by id finds the one owner |
| RunSafety.ListFits | src/server/broadcasting.c:83 | the list has at most 65535 clients |
| Handshake.InvStep | src/server/semaphore.c:55-94 | every semaphore call and board access of every thread and of the archiver keeps that balance |
| Handshake.InvRun | src/server/message_handler.c:241-290 | in every reachable state both semaphores balance their holders and locks, and the board is 1200 bytes ending in zero with a text of at most 1199 |
| Handshake.Counting | src/server/archiver.c:101-118 | the archiver's semaphore is 1 + releases - locks and in 0..2; with no clear in progress and the archiver waiting it is 1 and archived texts equal clears |
| Handshake.EachClearIsArchived | src/server/message_handler.c:242-256 | for any number of handlers, at any time no more clears have passed their wait, and no more texts are erased, than the archiver has written |
| Handshake.FiredByAClear | src/server/archiver.c:103 | the archiver starts only while some clear is between its two locks |
| Handshake.HoldersAlone | src/server/semaphore.c:55-79 | who holds the board is alone with it |
| Handshake.UpdateWritesBoard | src/server/message_handler.c:250-287 | in every interleaving an update leaves the stored text, or a blank board if its receive failed or was empty |
| Handshake.NeverStuck | src/server/message_handler.c:242-250 | while a thread has not returned, a thread or the archiver can step |
| Handshake.MeasureDecreases | src/server/archiver.c:101-118 | every step that is not an arrival decreases a natural number |
| Handshake.RunsEnd | src/server/archiver.c:101-118 | as long as no thread arrives a run has at most as many steps as that number |
| Handshake.EndState | src/server/archiver.c:101-118 | where nothing can step, all threads have returned, the semaphore is 1 and each clear has its archived text |
| ArchiveText.ArchivedIsErased | src/server/message_handler.c:242-256 | with one handler at a time, in every interleaving with archiver and readers, a clear erases exactly the text archived for it, and between clears the archive is the list of erased texts |
| ArchiveText.StoredIsArchivedIff | src/server/archiver.c:106-112 | for any number of handlers, the text a step stores is archived exactly if the archiver saves the board before the next step that writes it |
| ArchiveText.ErasedIsArchivedIff | src/server/message_handler.c:244-256 | for any number of handlers, what is erased has been archived exactly if the archiver has saved the board since it was last written |
| ArchiveText.LooksAreSettled | src/server/message_handler.c:179-182 | in every run, what a login, a broadcast or the archiver takes off the board is the first text or what the last clear or update left when it was through with the board, never the blank inside an update |
| BoardRuns.InvStep | src/server/message_handler.c:212-301 | every step of a client thread, a handler, a reader or the archiver keeps the invariants of list and semaphores, and the threads in board_handler are those that passed its check |
| BoardSafety.BoardIsTheWriters | src/server/message_handler.c:216-284 | in every run, a step that changes the board, or writes it, is one of a thread that was the writer at its check; it has been ever since exactly if the right has not moved, and it is now exactly if the right has not moved or came back to it last |
| BoardSafety.RightComesBack | src/server/message_handler.c:216-256 | a run in which a clear erases the board as the writer although the right moved away and back since its check |
| BoardSafety.TwoInside | src/server/message_handler.c:216-250 | two threads are in board_handler together only if the right was taken from the first while it was inside, before the check of the second |
| BoardSafety.ArchivedIsErased | src/server/message_handler.c:216-256 | in every run in which the right never moves while its holder is in board_handler, each clear erases exactly the text archived for it |
| BoardSafety.UpdateLost | src/server/message_handler.c:242-256 | a run in which a client that has lost the right meanwhile clears away the docent's update, which was never archived |
| BoardOrder.AudienceIsList | src/server/broadcasting.c:137-151 | in every run, those who are sent the broadcasts are exactly the clients in the list |
| BoardDelivery.GotSince | src/server/broadcasting.c:137-151 | in every run, what a client has been sent since it entered is exactly its login's board and every broadcast but those at whose sending it was the excluded writer, in the order of sending |
| BoardDelivery.AsTheLoop | src/server/broadcasting.c:139-151 | in every state the broadcasts of the machine go to exactly those to whom the loop over the list sends |
| BoardDelivery.NewWriterIsLeftOut | src/server/broadcasting.c:141-144 | a run in which an update is kept from a student that has been granted the right before its broadcast, and that now writes on the old board |
| BoardOrder.StaleIff | src/server/message_handler.c:172-188 | in every run, of two boards a client was sent the second is the older one exactly if it was read before the first with a write of the board in between, and then exactly one of them is its login's |
| BoardOrder.OldBoardLast | src/server/message_handler.c:179-188 | a run in which an update is broadcast to a new client before its login sends the board it had read, so that the client is left with the old one |
| Blackboards.WriteBoard | src/server/message_handler.c:249-290 | the first 1199 bytes of a received update followed by zeros only; blank for a clear and after a failed receive, which returns -1 |
| Blackboards.StoredText | src/server/message_handler.c:278-284 | the text on the board is the received C string cut to 1199 bytes |
| Blackboards.InitBlackboard | src/server/blackboard.c:61-85 | the first board has 1200 bytes, a zero at the end and the welcome text |
| Wire.BuildStatus | src/server/message_builder.c:13-34 | the bytes of a status message, field by field in wire order |
| Wire.BuildBoard | src/server/message_builder.c:40-55 | the first 3 + length bytes are the board message |
| Wire.BuildQuery | src/server/message_builder.c:61-78 | the bytes of a query, with the length cut to 16 bits |
| Wire.BuildError | src/server/message_builder.c:86-102 | the bytes of an error, with the length cut to 16 bits |
| Wire.Layout | src/net_message.h:22-71 | type number, length and every field stand at their offsets, 16-bit numbers with the high byte first |
| Wire.ReceivePayload | src/client/listener_thread.c:76-195 | the message made of a payload and what is left of the stream, or that a status payload or the text shown overruns its buffer; an unknown type leaves its payload |
| Wire.ListenerHandler | src/client/listener_thread.c:50-199 | the listener delivers the decoding of the whole stream, in order, with the stale header bytes of a connection that breaks inside a header |
| Wire.BrokenOff | src/client/listener_thread.c:54-76 | a connection that breaks inside a header makes the listener report one empty message of the type read, whatever came before |
| Wire.RoundTripIff | src/client/listener_thread.c:52-196 | a sequence of encoded messages is decoded to itself exactly if every text has no zero byte, fits the 16-bit length, and leaves room in the buffer it is shown from |
| Wire.SendLogin | src/client/command_thread.c:40-66 | the bytes of a login message |
| Wire.ReceiveLogin | src/server/message_handler.c:45-139 | role and name that the server takes from a stream, also from a cut one, or its refusal with the right result |
| Wire.RefusedIff | src/server/message_handler.c:50-99 | a complete header is refused with 1 exactly for another type, with -1 exactly for a length below 2 or no body; else role and name are those sent, a cut name what came of it |
| Wire.LoginIff | src/client/command_thread.c:40-66 | role and name arrive exactly if the name has 1 to 65534 bytes |
| Wire.LoginNameInQuery | src/client/listener_thread.c:177-178 | a name that has logged in reaches the docent in a query exactly if 62 bytes, the name and the digits of the id are less than 1024 |
| Delivery.HandlersAreUnderstood | src/server/message_handler.c:354-471 | every message a request or reply makes the server send is understood as sent, exactly unless it is a query whose question does not fit the listener's buffer |
| Broadcasting.BroadcastStatus | src/server/broadcasting.c:65-110 | one status per client in list order, with the three counts and write = 1 for the writer alone, as bytes |
| Broadcasting.CountsAreTrue | src/server/broadcasting.c:80-83 | with one docent the counts are the numbers of docents, tutors and other students, add up to the list and are not cut by the 16 bits |
| Broadcasting.DocentCountIff | src/server/broadcasting.c:81 | the docent count is true exactly if there is at most one docent |
| Broadcasting.BroadcastBlackboard | src/server/broadcasting.c:119-157 | the current text goes to the audience in list order: everybody, or everybody but the writer |
| Broadcasting.AgentTurn | src/server/broadcasting.c:176-192 | a status trigger broadcasts the status, a board trigger the board to all but the writer, a clear trigger the board to all |
| BroadcastLaws.StatusLaw | src/server/broadcasting.c:80-95 | with one docent, the packet to each client decodes to one status with its own role and id, write = 1 exactly if it has the right, and the true numbers of docents, tutors and other students |
| BroadcastLaws.StatusOnce | src/server/broadcasting.c:85-102 | one status packet goes to every client in the list and none to anybody else |
| BroadcastLaws.BoardLaw | src/server/broadcasting.c:137-151 | a board broadcast sends that board once to every client in the list that is not the excluded writer, and nothing else to anybody |
| BroadcastLaws.ClearReachesAll | src/server/message_handler.c:294-299 | what an uninterrupted clear triggers brings the blank board once to everybody in the list, the writer too |
| BroadcastLaws.UpdateReachesOthers | src/server/message_handler.c:294-299 | what an uninterrupted update triggers brings the new text once to everybody in the list but the writer, who is sent nothing |
| Broadcasting.BoardOnce | src/server/broadcasting.c:139-151 | every client that is not excluded gets the board exactly once, nobody else does |
| Broadcasting.InListOrder | src/server/broadcasting.c:139-151 | the receivers are in list order |
| Broadcasting.BoardArrives | src/server/message_handler.c:179-188 | a board's text has at most 1199 bytes and the client reads all of it |
| Trigger.InvRun | src/server/broadcasting.c:31-36 | the stored type is that of the last trigger, and the agent is signalled exactly while a trigger is outstanding |
| Trigger.BroadcastsLastKind | src/server/broadcasting.c:178-192 | every broadcast has the type of the last trigger before it |
| Trigger.WaitsForTriggers | src/server/broadcasting.c:175-193 | once the agent has waited, it waits unsignalled only if no trigger is outstanding |
| Trigger.AnsweredIff | src/server/broadcasting.c:31-36 | when the agent waits unsignalled, every trigger since its first wait has been followed by a broadcast, and the first one has the trigger's type exactly if the last trigger before that broadcast has |
| Trigger.TriggerCanBeLost | src/server/broadcasting.c:31-36 | for any two types, a run in which a trigger of the first is overtaken by one of the second and never answered |
| Utf8.CorrectedIsFloor | src/client/gui.c:109-123 | in valid text without zero bytes the correction goes back to the last character boundary and no further |
| Utf8.CutIff | src/client/gui.c:109-123 | both parts of a valid text are valid exactly if it is cut at a boundary |
| InsertText.CountRows | src/client/gui.c:90-92 | the counted newlines are the text's, at most as many as rows are free |
| InsertText.CorrectBack | src/client/gui.c:109-123 | the three tests in their order |
| InsertText.FillLine | src/client/gui.c:96-132 | the byte loop without counted newlines takes what the row-wise definition says |
| InsertText.FillRow | src/client/gui.c:138-199 | one turn of the row loop: cut at the limit, end of text, next row, or end at a newline |
| InsertText.FillRows | src/client/gui.c:133-201 | the nested loops end and take what the row-wise definition says |
| InsertText.PrefixLength | src/client/gui.c:89-201 | the accepted length for any text and any geometry of a view |
| InsertBounds.AcceptedIsUtf8 | src/client/gui.c:95-207 | whatever exit the loops take, the accepted prefix of a valid text is valid, and so is the rest |
| InsertBounds.InsertKeepsUtf8 | src/client/gui.c:203-207 | the board stays valid UTF-8 |
| InsertBounds.OneRowBound | src/client/gui.c:96-132 | with no counted newline none is accepted, and a line grows to at most 79 bytes, a longer one not at all |
| InsertBounds.OneRowKeepsLines | src/client/gui.c:96-132 | with no counted newline, lines of at most 80 bytes stay so at any cursor |
| InsertBounds.LinesKeptIff | src/client/gui.c:96-199 | lines of at most 80 bytes stay so exactly if no row before the last counted newline is cut, or the cut row has room for the rest of the cursor's line |
| InsertBounds.LinesKeptAtLineEnd | src/client/gui.c:133-199 | with the cursor at the end of its line they always stay so |
| InsertBounds.MidLinePaste | src/client/gui.c:148-171 | 80 letters and a newline at the start of a line add 79 bytes to that line |
| InsertBounds.RowsKeptIff | src/client/gui.c:135-200 | a board of at most 15 rows stays so exactly unless the last counted row meets a newline at its limit; then it has 16 |
| InsertExact.OneRowIsLongest | src/client/gui.c:96-132 | with no counted newline the accepted part ends at the first newline, or at the last character with which the cursor's line has at most 79 bytes |
| InsertExact.AcceptedIsLongest | src/client/gui.c:89-201 | for every valid text, content and cursor the accepted prefix is the longest one that ends between characters, leaves every row within 79 bytes of its line, and takes no more rows than are free, but for the newline that ends a full last row |
| TextBuffers.TextBuffer.Insert | src/client/gui.c:203-215 | an insertion by the user puts in exactly the accepted prefix, once, in place of a selection, and leaves the flag clear; a text that is not valid UTF-8 changes nothing; the buffer stays valid UTF-8 |
| TextBuffers.TextBuffer.OnInsertText | src/client/gui.c:61-216 | the first call measures, deletes a selection, inserts the prefix, which GTK accepts because it is valid, and stops the signal; the nested call lets it pass |
| TextBuffers.TextBuffer.SetText | src/client/client.c:114-116 | a received board replaces the buffer by the accepted prefix of its text, or by nothing if that is not valid UTF-8 |
| TextBuffers.ReplaceKeepsUtf8 | src/client/gui.c:79-207 | replacing a selection keeps the buffer valid UTF-8 |
| TextBuffers.ReplacedIs | src/client/gui.c:79-207 | in place of a selection, or at the cursor, stands the longest part of the text that can go in; all of it exactly if no row meets the limit |
| ReaderView.ShownIff | src/client/gui.c:74-207 | a text put into an empty buffer is shown whole exactly if it is valid UTF-8 and is one line of at most 79 bytes, or up to 15 lines with the last of at most 80 bytes and the others of at most 79, or 15 such lines and a newline with the fifteenth of exactly 80 |
| ReaderView.NothingShownIff | src/client/client.c:114-116 | it is not shown at all exactly if it is empty or not valid UTF-8 |
| ReaderView.ReaderSeesBoard | src/client/client.c:106-117 | every board of the server arrives whole; it is shown whole exactly if it is valid UTF-8 with lines of those lengths, and not at all exactly if it is empty or not valid |
| ReaderView.CutIsUtf8Iff | src/server/message_handler.c:278-284 | a valid text is still valid on the board exactly if it has at most 1199 bytes or its 1200th starts a character |
| ReaderView.UpdateSeenIff | src/server/message_handler.c:278-284 | a writer's valid text is shown to the readers whole exactly if it has at most 1199 bytes and lines of those lengths, and not at all exactly if it is empty or cut inside a character |
| ReaderView.BoardUtf8Iff | src/server/message_handler.c:250-287 | in a run whose updates are valid the board is valid in every state exactly if no update was cut inside a character |
| ReaderView.LostToAllReaders | src/client/liveagent_thread.c:49-59 | a board of 1200 bytes that the writer's client takes whole and no reader sees |
| ReaderView.FullLineIsCut | src/client/gui.c:148-171 | a line of 80 bytes and a newline is within the limits of a board, and its readers see 79 bytes |

## Left out

- ClientThread.LoginHandler: describes a login nobody interrupts; the interleaving of its three locked sections is in Runs.
- ClientThread.BoardHandler: takes check and write as one; the two looks of the check are steps of Runs, the semaphores of Handshake, and both together are in BoardRuns.
- ClientThread.ClientHandler: describes a thread running alone; interleavings are in Runs and BoardRuns.
- RunSafety.CrashLaw: the second look reads `user_write` and the entry behind it in one step; an entry freed in between is not modelled.
- BoardSafety.BoardIsTheWriters: a failed receive ends a thread by an event of its own, not tied to the failed copy in Handshake, so the machine has more runs than the server.
- BoardOrder.StaleIff: the agent reads the board whenever it is free; what starts it is in Trigger.
- Wire.ListenerHandler: nothing is said about what follows the overrun of a buffer.
- InsertText.PrefixLength: lines are split at newline bytes only.
- InsertBounds.LinesKeptIff: says nothing of an insertion that replaces a selection; deleting text is not limited by the code and can join lines to any length.
- Handshake.NeverStuck: takes every receive inside the board's semaphore as a step that ends, with or without data.
- Handshake.InvStep: semaphores, archiver and handlers are steps on values, one per semaphore call or board access; blocking is a step that is not enabled, and the endless loops are not methods.
- Trigger.InvRun: the mutex and the condition variable are steps on values in the same way.
- Trigger.WaitsForTriggers: triggers before the agent's first wait are lost, so they do not count as outstanding.
- Broadcasting.BroadcastStatus: a failing send is only reported by the code and is not modelled.
- Deadlock between the list mutex and the trigger mutex, which are taken in both orders.
- The client's other messages (request, reply, clear, shutdown, board) as bytes; their handlers start from the decoded fields.
- A board message of a client without the right leaves its payload in the stream to the server.
- Sockets, processes, signals, the lock file, ids of shared memory and semaphores, the logging queue.
- The archiver's debug thread, its file format and time stamps.
- Windows, buttons, dialogs and the timer of the client.
- Memory allocation, its failures and freeing.
