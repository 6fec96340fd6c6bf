/** The records exchanged between the board coordinator, its two companion stores and the client. */
module Records {

  /** A chat message as the coordinator persists and broadcasts it. */
  datatype Message = Message(id: string, message: string, name: string, timestamp: int)

  /** A sticky note. `status` is plain text because the stores copy whatever the request carries. */
  datatype Task = Task(id: string, title: string, timestamp: int, status: string, owner: string, assignee: string)

  /** A presence entry. */
  datatype UserState = UserState(id: string, name: string, online: bool)

  const StatusPending := "pending"
  const StatusAssigned := "assigned"

  /** Display name used wherever a name is missing or falsy. */
  const Anonymous := "anonymous"
}
