/** Parsed session events; timestamps are milliseconds. */
module Events {
  import opened Common
  import opened Counters

  datatype UsageRecord = UsageRecord(
    responseId: string,
    usage: Counters,
    thread: Counters,
    threadId: Option<string>,
    sessionId: Option<string>
  )

  datatype ChildLink = ChildLink(threadId: string, agentPath: string)

  datatype Body =
    | SessionMeta(id: string, threadId: Option<string>, parentThreadId: Option<string>)
    | TurnContext(model: Option<string>, collaborationModel: Option<string>)
    | TokenUsage(record: UsageRecord)
    | Compacted
    | ChildStarted(link: ChildLink)
    | TokenCount(total: Option<Counters>)
    | Other

  datatype Event = Event(at: int, body: Body)

  /** Counters the parser lets through: safe integers, with reasoning a part of output. */
  predicate Recordable(c: Counters) {
    && c.input <= MAX_SAFE_INTEGER && c.cached <= MAX_SAFE_INTEGER && c.output <= MAX_SAFE_INTEGER
    && c.reasoning <= MAX_SAFE_INTEGER && c.total <= MAX_SAFE_INTEGER && c.cacheWrite <= MAX_SAFE_INTEGER
    && c.reasoning <= c.output
  }
}
