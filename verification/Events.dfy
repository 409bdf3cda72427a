/** What one event of a session says, as far as a reader of turns looks at it. */
module Events {
  import opened Base

  datatype Kind =
    | AgentMessage(text: string)
    | ToolUse(name: string)
    | ThreadCreated(thread: string)
    | SessionError(detail: string)
    | Terminated
    | Idle(reason: Option<string>)
    | Other

  datatype Event = Event(id: Option<string>, kind: Kind)

  /** Every event carries an id, and no two carry the same one. */
  ghost predicate Addressed(history: seq<Event>) {
    && (forall i :: 0 <= i < |history| ==> history[i].id.Some?)
    && (forall i, j :: 0 <= i < j < |history| ==> history[i].id != history[j].id)
  }
}
