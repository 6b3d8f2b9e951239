/**
 * The page that owns the event list: the list transforms behind its handlers
 * (as functions on sequences), the page state (a class whose fields the
 * handlers overwrite), and the wiring of the add/edit dialog to the handlers.
 * The fresh id, the creation instant and "now" are parameters.
 */
module Index {
  import opened Options
  import opened Countdown
  import opened Seqs
  import opened AddEventDialog

  /** `[...events, newEvent]` with the new event built from the submitted fields. */
  function AddNew(events: seq<Event>, data: EventData, freshId: string, createdAt: Instant): (r: seq<Event>)
    ensures |r| == |events| + 1
    ensures r[..|events|] == events
    ensures Fields(r[|events|]) == data && r[|events|].id == freshId && r[|events|].createdAt == createdAt
  {
    events + [WithIdentity(data, freshId, createdAt)]
  }

  /**
   * The update branch: every event carrying the edited event's id becomes the
   * submitted fields under the edited event's id and creation instant; every
   * other event stays as it is.
   */
  function Update(events: seq<Event>, editEvent: Event, data: EventData): (r: seq<Event>)
    ensures |r| == |events|
    ensures forall i :: 0 <= i < |events| && events[i].id == editEvent.id ==>
      Fields(r[i]) == data && r[i].id == editEvent.id && r[i].createdAt == editEvent.createdAt
    ensures forall i :: 0 <= i < |events| && events[i].id != editEvent.id ==> r[i] == events[i]
  {
    seq(|events|, i requires 0 <= i < |events| =>
      if events[i].id == editEvent.id then WithIdentity(data, editEvent.id, editEvent.createdAt) else events[i])
  }

  /** The list effect of `handleAddEvent`: update when an event is being edited, append otherwise. */
  function AddOrUpdate(events: seq<Event>, editEvent: Option<Event>, data: EventData,
                       freshId: string, createdAt: Instant): (r: seq<Event>)
    ensures editEvent.None? ==> |r| == |events| + 1 && r[..|events|] == events
    ensures editEvent.Some? ==> |r| == |events|
    ensures forall i :: 0 <= i < |events| && (editEvent.None? || events[i].id != editEvent.value.id) ==>
      r[i] == events[i]
  {
    match editEvent
    case Some(e) => Update(events, e, data)
    case None => AddNew(events, data, freshId, createdAt)
  }

  /** The filter tests of the page: another id, a target after `now`, a target at or before `now`. */
  function NotId(id: string): Event -> bool { (e: Event) => e.id != id }
  function IsActive(now: Instant): Event -> bool { (e: Event) => e.targetDate > now }
  function IsExpired(now: Instant): Event -> bool { (e: Event) => e.targetDate <= now }

  /** `events.filter(event => event.id !== id)`. */
  function Delete(events: seq<Event>, id: string): (r: seq<Event>)
    ensures forall e :: e in r <==> e in events && e.id != id
  {
    Filter(events, NotId(id))
  }

  /** The events whose target lies after `now`. */
  function Active(events: seq<Event>, now: Instant): (r: seq<Event>)
    ensures forall e :: e in r <==> e in events && e.targetDate > now
  {
    Filter(events, IsActive(now))
  }

  /** The events whose target is at or before `now`. */
  function Expired(events: seq<Event>, now: Instant): (r: seq<Event>)
    ensures forall e :: e in r <==> e in events && e.targetDate <= now
  {
    Filter(events, IsExpired(now))
  }

  // ----- Deleting -----

  /** Deleting keeps the surviving events in their original order. */
  lemma DeleteKeepsOrder(a: seq<Event>, b: seq<Event>, id: string)
    ensures Delete(a + b, id) == Delete(a, id) + Delete(b, id)
    ensures Delete([], id) == []
    ensures forall e :: Delete([e], id) == if e.id == id then [] else [e]
  {
    FilterAppend(a, b, NotId(id));
  }

  /** Deleting an id that no event carries changes nothing. */
  lemma DeleteAbsent(events: seq<Event>, id: string)
    requires forall e :: e in events ==> e.id != id
    ensures Delete(events, id) == events
  {
    FilterAll(events, NotId(id));
  }

  /** Deleting twice is deleting once. */
  lemma DeleteIdempotent(events: seq<Event>, id: string)
    ensures Delete(Delete(events, id), id) == Delete(events, id)
  {
    FilterIdempotent(events, NotId(id));
  }

  /** Deleting the id of an event just added under a fresh id restores the list. */
  lemma DeleteUndoesAdd(events: seq<Event>, data: EventData, freshId: string, createdAt: Instant)
    requires forall e :: e in events ==> e.id != freshId
    ensures Delete(AddNew(events, data, freshId, createdAt), freshId) == events
  {
    var added := WithIdentity(data, freshId, createdAt);
    DeleteKeepsOrder(events, [added], freshId);
    DeleteAbsent(events, freshId);
  }

  /** Deleting the edited id after an update is the same as deleting it before. */
  lemma {:induction false} DeleteAfterUpdate(events: seq<Event>, editEvent: Event, data: EventData)
    ensures Delete(Update(events, editEvent, data), editEvent.id) == Delete(events, editEvent.id)
  {
    if events != [] {
      var rest := events[1..];
      assert events == [events[0]] + rest;
      assert Update(events, editEvent, data) == Update([events[0]], editEvent, data) + Update(rest, editEvent, data);
      DeleteKeepsOrder([events[0]], rest, editEvent.id);
      DeleteKeepsOrder(Update([events[0]], editEvent, data), Update(rest, editEvent, data), editEvent.id);
      DeleteAfterUpdate(rest, editEvent, data);
    }
  }

  // ----- Updating -----

  /** Updating with an id that no event carries changes nothing. */
  lemma UpdateAbsent(events: seq<Event>, editEvent: Event, data: EventData)
    requires forall e :: e in events ==> e.id != editEvent.id
    ensures Update(events, editEvent, data) == events
  {
  }

  /** Submitting the same update twice is submitting it once. */
  lemma UpdateIdempotent(events: seq<Event>, editEvent: Event, data: EventData)
    ensures Update(Update(events, editEvent, data), editEvent, data) == Update(events, editEvent, data)
  {
  }

  /**
   * Opening the dialog on an event and submitting the untouched form leaves
   * the list as it was, when the event has a description and no icon, its
   * date survives formatting and parsing, and every event with its id is it.
   */
  lemma ResubmitUnchanged(events: seq<Event>, e: Event, formatDate: Instant -> string, parseDate: string -> Instant)
    requires e.title != "" && formatDate(e.targetDate) != ""
    requires parseDate(formatDate(e.targetDate)) == e.targetDate
    requires e.description.Some? && e.icon.None?
    requires forall x :: x in events && x.id == e.id ==> x == e
    ensures Emit(Prefill(Some(e), formatDate), parseDate) == Some(Fields(e))
    ensures Update(events, e, Fields(e)) == events
  {
  }

  // ----- Partition -----

  /** For one `now`, every event lands in exactly one of the two parts. */
  lemma PartitionExact(events: seq<Event>, now: Instant)
    ensures multiset(Active(events, now)) + multiset(Expired(events, now)) == multiset(events)
    ensures |Active(events, now)| + |Expired(events, now)| == |events|
    ensures forall e :: e in events ==> (e in Active(events, now) <==> e !in Expired(events, now))
  {
    FilterPartition(events, IsActive(now), IsExpired(now));
  }

  /** Each part keeps the original order. */
  lemma PartitionKeepsOrder(a: seq<Event>, b: seq<Event>, now: Instant)
    ensures Active(a + b, now) == Active(a, now) + Active(b, now)
    ensures Expired(a + b, now) == Expired(a, now) + Expired(b, now)
  {
    FilterAppend(a, b, IsActive(now));
    FilterAppend(a, b, IsExpired(now));
  }

  /** The page's state. */
  class EventStore {
    var events: seq<Event>
    /** The event being edited, if any (`null` in the source). */
    var editEvent: Option<Event>
    var dialogOpen: bool

    /** The page after its load effect has put `loaded` into the list. */
    constructor (loaded: seq<Event>)
      ensures events == loaded && editEvent == None && !dialogOpen
    {
      events := loaded;
      editEvent := None;
      dialogOpen := false;
    }

    /** `handleAddEvent`: update the edited event or append a new one; either way nothing is being edited afterwards. */
    method AddEvent(data: EventData, freshId: string, createdAt: Instant)
      modifies this
      ensures events == AddOrUpdate(old(events), old(editEvent), data, freshId, createdAt)
      ensures editEvent == None && dialogOpen == old(dialogOpen)
    {
      match editEvent {
        case Some(e) =>
          events := Update(events, e, data);
          editEvent := None;
        case None =>
          events := AddNew(events, data, freshId, createdAt);
      }
    }

    /** `handleEditEvent`: remember the event and open the dialog. */
    method EditEvent(e: Event)
      modifies this
      ensures editEvent == Some(e) && dialogOpen && events == old(events)
    {
      editEvent := Some(e);
      dialogOpen := true;
    }

    /** `handleDeleteEvent`. */
    method DeleteEvent(id: string)
      modifies this
      ensures events == Delete(old(events), id)
      ensures editEvent == old(editEvent) && dialogOpen == old(dialogOpen)
    {
      events := Delete(events, id);
    }

    /** `handleDialogClose`: record the open state; closing also forgets the edited event. */
    method DialogClose(open: bool)
      modifies this
      ensures dialogOpen == open && events == old(events)
      ensures editEvent == if open then old(editEvent) else None
    {
      dialogOpen := open;
      if !open {
        editEvent := None;
      }
    }

    /** The "Add Event" buttons: open the dialog. */
    method OpenAddDialog()
      modifies this
      ensures dialogOpen && events == old(events) && editEvent == old(editEvent)
    {
      dialogOpen := true;
    }
  }

  /**
   * Submitting the dialog: the form's guard, then `handleAddEvent` with what it
   * emits, then `handleDialogClose(false)` and the dialog's effect, which the
   * change of `open` triggers. A rejected submit changes nothing.
   */
  method SubmitDialog(store: EventStore, form: EventForm, parseDate: string -> Instant,
                      formatDate: Instant -> string,
                      freshId: string, createdAt: Instant) returns (emitted: Option<EventData>)
    modifies store, form
    ensures emitted == Emit(old(form.formData), parseDate)
    ensures emitted.None? ==>
      store.events == old(store.events) && store.editEvent == old(store.editEvent) &&
      store.dialogOpen == old(store.dialogOpen) &&
      form.formData == old(form.formData) && form.open == old(form.open)
    ensures emitted.Some? ==>
      store.events == AddOrUpdate(old(store.events), old(store.editEvent), emitted.value, freshId, createdAt) &&
      store.editEvent == None && !store.dialogOpen &&
      form.formData == EmptyForm && !form.open
  {
    emitted := form.Submit(parseDate);
    if emitted.Some? {
      store.AddEvent(emitted.value, freshId, createdAt);
      store.DialogClose(false);
      form.Sync(store.editEvent, formatDate);
    }
  }

  /**
   * The dialog's Cancel button, shown only while the dialog is open:
   * `handleDialogClose(false)`, then the dialog's effect, which runs because
   * `open` changed and resets the form for the now absent edited event.
   */
  method CancelDialog(store: EventStore, form: EventForm, formatDate: Instant -> string)
    requires store.dialogOpen
    modifies store, form
    ensures store.events == old(store.events) && store.editEvent == None && !store.dialogOpen
    ensures !form.open && form.formData == EmptyForm
  {
    form.Cancel();
    store.DialogClose(false);
    form.Sync(store.editEvent, formatDate);
  }
}
