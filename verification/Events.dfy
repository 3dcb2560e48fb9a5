/** What the watching thread tells the reading thread. */
module Events {
  import opened Names

  datatype EventType = Delete | MoveSelf | Modify | MoveTo | Stop

  /** The configured path, the file itself, and the name it had before it was moved. */
  datatype Event = Event(pathfile: Name, origfile: Name, aliasfile: Name, event: EventType)
}
