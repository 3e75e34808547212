/**
 * What travels on the three topics of the Load lane: documents on the target topic, and the
 * confirmation and rejection records Target System writes back.
 *
 * JSON itself is not modelled. A document is the few fields the programs read from it, plus an
 * opaque payload; a body or value that does not parse is `None`.
 */
module Messages {
  import opened Text
  import opened Wrappers

  /** `accountId` and `dedupKey` are `None` when the field is missing or null. */
  datatype Doc = Doc(accountId: Option<string>, dedupKey: Option<string>, runId: string, payload: string)

  datatype Message = Message(key: Option<string>, body: Option<Doc>)

  datatype Topic = Confirmations | Rejections

  /** `outcome` and `reason` are `None` when the event does not carry the field. */
  datatype Event = Event(runId: string, accountId: string, outcome: Option<string>, reason: Option<string>)

  datatype ReturnRecord = ReturnRecord(topic: Topic, key: Option<string>, value: Option<Event>)

  const CREATED := "created"
  const DUPLICATE := "duplicate"

  predicate Missing(field: Option<string>) {
    field.None? || IsBlank(field.value)
  }
}
