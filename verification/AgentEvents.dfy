/** The events an agent provider emits and the types under which the audit store keeps them. */
module AgentEvents {
  import opened Options

  /** One event: its type, its text delta when that is a string, and the rest of its fields. */
  datatype Event = Event(kind: Option<string>, delta: Option<string>, rest: string)

  predicate IsToken(e: Event) {
    e.kind == Some("token") && e.delta.Some?
  }

  predicate IsTerminal(e: Event) {
    e.kind == Some("done") || e.kind == Some("error")
  }

  function ErrorEvent(text: string): Event {
    Event(Some("error"), None, text)
  }

  /** A stored event type, by its dotted prefix. */
  datatype EventType = Provider(name: string) | Supervisor(name: string)
}
