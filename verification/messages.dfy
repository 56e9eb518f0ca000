/** Chat messages as the completion endpoint and the session store them. */
module Messages {
  import opened Wrappers

  datatype Role = System | User | Assistant

  datatype Message = Message(role: Role, content: string)

  /** The remote completion endpoint: the text it generates for a list of
      messages, or None when the request fails (an error status or a
      transport failure, which the application does not catch). */
  type Completion = seq<Message> -> Option<string>
}
