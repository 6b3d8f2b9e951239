/**
 * The records shared by the page, the card and the dialog.
 * Instants (`Date` values) are integer milliseconds since the epoch.
 */
module Countdown {
  import opened Options

  type Instant = int

  /** The closed set of event categories. */
  datatype Category = Birthday | Holiday | Work | Personal | Travel

  /** A countdown event as the page stores it. */
  datatype Event = Event(
    id: string,
    title: string,
    description: Option<string>,
    targetDate: Instant,
    category: Category,
    icon: Option<string>,
    createdAt: Instant)

  /** What the dialog hands to the page: an event without its `id` and `createdAt`. */
  datatype EventData = EventData(
    title: string,
    description: Option<string>,
    targetDate: Instant,
    category: Category,
    icon: Option<string>)

  /** The breakdown the countdown hook publishes for one event. */
  datatype TimeRemaining = TimeRemaining(days: int, hours: int, minutes: int, seconds: int, isExpired: bool)

  /** `{ ...data, id, createdAt }`: the submitted fields under a given identity. */
  function WithIdentity(data: EventData, id: string, createdAt: Instant): (e: Event)
    ensures Fields(e) == data && e.id == id && e.createdAt == createdAt
  {
    Event(id, data.title, data.description, data.targetDate, data.category, data.icon, createdAt)
  }

  /** The fields of an event other than its identity. */
  function Fields(e: Event): EventData {
    EventData(e.title, e.description, e.targetDate, e.category, e.icon)
  }

  /** An event is its fields under its own identity. */
  lemma FieldsRoundTrip(e: Event)
    ensures WithIdentity(Fields(e), e.id, e.createdAt) == e
  {
  }
}
