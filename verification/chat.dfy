/** The chat message record the conversation history is made of. */
module Chat {

  /** Who wrote a message: the person chatting, or the assistant. */
  datatype Sender = User | Ai

  datatype Message = Message(id: string, text: string, sender: Sender)
}
