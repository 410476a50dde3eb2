/** Values shared by the whole model: protocol messages, RPC statuses and the two
    outcomes of a C++ call (it returns a value, or it throws). */
module Domain {

  datatype Option<+T> = None | Some(value: T)

  datatype Result<+T> = Ok(value: T) | Thrown

  datatype Status = OK | INVALID_ARGUMENT | UNAUTHENTICATED(reason: string) | INTERNAL

  /** The fields of WrongthinkMessage that the service reads or writes. */
  datatype Message = Message(
    uname: string, channelName: string, channelId: int, userId: int,
    threadId: int, threadChild: bool, edited: bool, text: string,
    date: int, messageId: int)

  /** A default-constructed message, the initial value of lastMessage_. */
  const NO_MESSAGE := Message("", "", 0, 0, 0, false, false, "", 0, 0)

  type Log = seq<Message>

  /** The last message of the first n entries, or the default message when there is none. */
  function MessageAt(log: Log, n: nat): Message
    requires n <= |log|
  {
    if n == 0 then NO_MESSAGE else log[n - 1]
  }
}
