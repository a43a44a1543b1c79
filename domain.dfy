/** The persisted output of a completed pair (LogEvent), without its database key. */
module Domain {
  import opened Wrappers

  datatype LogEvent = LogEvent(
    eventId: string,
    eventDuration: int,
    eventType: Option<string>,
    host: Option<string>,
    isAlert: bool)
}
