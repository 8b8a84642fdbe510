/** The relay's shared data: the normalised email, the notification entry
    produced per channel attempt, and the integer clock. A Java reference
    that may be null is an `Option`. */
module Model {

  datatype Option<T> = None | Some(value: T) {
    function GetOr(default: T): T {
      match this
      case Some(v) => v
      case None => default
    }
  }

  /** Non-null and non-empty: the `s != null && !s.isEmpty()` test. */
  predicate Present(s: Option<string>) {
    s.Some? && s.value != ""
  }

  /** A normalised email. Times are seconds on the local date-time line. */
  datatype Email = Email(
    id: string,
    threadId: Option<string>,
    subject: Option<string>,
    sender: Option<string>,
    senderEmail: Option<string>,
    body: Option<string>,
    receivedAt: Option<int>,
    isImportant: bool)

  datatype ChannelKind = TELEGRAM | WHATSAPP | EMAIL
  datatype Priority = HIGH | MEDIUM | LOW
  datatype Status = PENDING | SENT | FAILED

  /** One notification entry; the random id, the rendered text and the
      creation time carry no behaviour and are not represented. */
  datatype Notification = Notification(
    title: Option<string>,
    channel: ChannelKind,
    priority: Priority,
    status: Status)

  const SecondsPerHour: int := 3600
  const SecondsPerDay: int := 86400

  /** ChronoUnit.HOURS.between(from, to): whole hours, truncated toward
      zero in both directions. */
  function HoursBetween(from: int, to: int): (r: int)
    ensures to >= from ==> 0 <= r && r * SecondsPerHour <= to - from < (r + 1) * SecondsPerHour
    ensures to < from ==> r <= 0 && (-r) * SecondsPerHour <= from - to < (-r + 1) * SecondsPerHour
  {
    if to >= from then (to - from) / SecondsPerHour else -((from - to) / SecondsPerHour)
  }
}
