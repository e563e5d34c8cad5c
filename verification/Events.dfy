/** The file-system event that every component passes on. */
module Events {
  import opened Options
  import opened TimestampText

  type Utc = t: DateTime | t.Valid() witness DateTime(1970, 1, 1, 0, 0, 0, 0)

  function Epoch(): Utc { DateTime(1970, 1, 1, 0, 0, 0, 0) }

  datatype EventType =
    | Created | Modified | Attrib | CloseWrite | CloseNoWrite | Opened
    | MovedTo | MovedFrom | Deleted | Renamed | Accessed

  datatype Event = Event(
    id: string, timestamp: Utc, eventType: EventType, path: string, targetPath: Option<string>,
    isDir: Option<bool>, user: Option<string>, process: Option<string>, watchRoot: string)
}
