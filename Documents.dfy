/**
 * The records the upstream document service hands out. An event (a talk) is a
 * document with an identifier, a metadata object and a text body; the schedule
 * of a user is a list of preferences naming documents; a listing query answers
 * with a list of matches naming documents.
 */
module Documents {

  /** Identifiers as they travel through URLs, JSON fields and the cache keys. */
  type EventId = string

  /**
   * The fields of `meta` that the handlers read: the sort key
   * `start_time_numeric` and the comma-space separated `authors` and
   * `author_ids` strings. Everything else in `meta` is carried along in
   * `other`, untouched.
   */
  datatype Meta = Meta(
    startTimeNumeric: int,
    authors: string,
    authorIds: string,
    other: map<string, string>)

  /** One upstream document: `id`, `meta` and `text`. */
  datatype Event = Event(id: EventId, meta: Meta, text: string)

  /** One entry of a user's preference list: `{'document_id': ...}`. */
  datatype Preference = Preference(documentId: EventId)

  /** One entry of a tag, search or similarity answer: `{'id': ...}`. */
  datatype Match = Match(id: EventId)

  /** The sort key of a schedule entry. */
  function StartTime(e: Event): int {
    e.meta.startTimeNumeric
  }
}
