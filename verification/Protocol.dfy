/** Message numbers and the messages a server sends (src/net_message.h). */
module Protocol {
  import opened Commons

  const M_LOGIN: Byte := 0
  const M_STATUS: Byte := 1
  const M_BOARD: Byte := 2
  const M_QUERY: Byte := 6
  const M_ERROR: Byte := 255

  const E_MESSAGE: Byte := 0
  const E_LOGIN: Byte := 10

  /** What the broadcasting agent is told to send: a status, the board to all but the writer, or
      the board to everybody. */
  datatype Broadcast = STATUS | BLACKBOARD | CLEAR

  datatype ServerMessage =
    | Status(role: Byte, cid: Word, write: Byte, dcount: Byte, tcount: Byte, scount: Word)
    | Board(content: seq<Byte>)
    | Query(asker: Word, name: seq<Byte>)
    | Error(ecode: Byte, detail: seq<Byte>)
}
