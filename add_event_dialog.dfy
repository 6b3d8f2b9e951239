/**
 * The add/edit dialog: a form record that the dialog overwrites step by step,
 * a submit guard, and the dialog's open state as the dialog requests it.
 * Date strings are opaque; `parseDate` stands for `new Date(string)` and
 * `formatDate` for the "YYYY-MM-DD" prefix of `toISOString()`.
 */
module AddEventDialog {
  import opened Options
  import opened Countdown

  /** The form's state: every field is the text the user sees. */
  datatype FormData = FormData(title: string, description: string, targetDate: string, category: Category)

  /** The form's starting values and the values it resets to. */
  const EmptyForm: FormData := FormData("", "", "", Personal)

  /** The value the prefill/reset effect gives the form for the event being edited, if any. */
  function Prefill(editEvent: Option<Event>, formatDate: Instant -> string): (f: FormData)
    ensures editEvent.None? ==> f == EmptyForm
    ensures editEvent.Some? ==>
      f.title == editEvent.value.title &&
      f.targetDate == formatDate(editEvent.value.targetDate) &&
      f.category == editEvent.value.category &&
      (editEvent.value.description.Some? ==> f.description == editEvent.value.description.value) &&
      (editEvent.value.description.None? ==> f.description == "")
  {
    match editEvent
    case None => EmptyForm
    case Some(e) => FormData(e.title, e.description.GetOr(""), formatDate(e.targetDate), e.category)
  }

  /**
   * What a submit hands to the page: nothing when the title or the date is
   * empty, otherwise exactly the form's fields with the date parsed.
   */
  function Emit(f: FormData, parseDate: string -> Instant): (r: Option<EventData>)
    ensures r.None? <==> f.title == [] || f.targetDate == []
    ensures r.Some? ==>
      r.value.title == f.title && r.value.description == Some(f.description) &&
      r.value.targetDate == parseDate(f.targetDate) && r.value.category == f.category &&
      r.value.icon == None
  {
    if f.title == "" || f.targetDate == "" then None
    else Some(EventData(f.title, Some(f.description), parseDate(f.targetDate), f.category, None))
  }

  /**
   * Opening the dialog on an event and submitting the untouched form hands
   * back that event's fields, provided its date survives formatting and
   * parsing; an absent description comes back as the empty string and the
   * icon is dropped.
   */
  lemma PrefillThenEmit(e: Event, formatDate: Instant -> string, parseDate: string -> Instant)
    requires e.title != "" && formatDate(e.targetDate) != ""
    requires parseDate(formatDate(e.targetDate)) == e.targetDate
    ensures Emit(Prefill(Some(e), formatDate), parseDate)
      == Some(EventData(e.title, Some(e.description.GetOr("")), e.targetDate, e.category, None))
  {
  }

  /** The dialog's form state. */
  class EventForm {
    var formData: FormData
    /**
     * The last open state the dialog itself requested through `onOpenChange`.
     * The page's `dialogOpen` is what the dialog is shown with; the two agree
     * after the dialog's own submit and cancel.
     */
    var open: bool

    constructor (open: bool)
      ensures formData == EmptyForm && this.open == open
    {
      formData := EmptyForm;
      this.open := open;
    }

    /** The effect that runs when `editEvent` or `open` changes. */
    method Sync(editEvent: Option<Event>, formatDate: Instant -> string)
      modifies this`formData
      ensures formData == Prefill(editEvent, formatDate)
    {
      formData := Prefill(editEvent, formatDate);
    }

    /**
     * Submit: the guard, then the emitted record, then the request to close,
     * then the reset. A rejected submit changes nothing.
     */
    method Submit(parseDate: string -> Instant) returns (emitted: Option<EventData>)
      modifies this
      ensures emitted == Emit(old(formData), parseDate)
      ensures emitted.None? ==> formData == old(formData) && open == old(open)
      ensures emitted.Some? ==> formData == EmptyForm && !open
    {
      emitted := Emit(formData, parseDate);
      if emitted.None? {
        return;
      }
      open := false;
      formData := EmptyForm;
    }

    /** The Cancel button: requests closing and emits nothing. */
    method Cancel()
      modifies this`open
      ensures !open
    {
      open := false;
    }

    method SetTitle(value: string)
      modifies this`formData
      ensures formData == old(formData).(title := value)
    {
      formData := formData.(title := value);
    }

    method SetDescription(value: string)
      modifies this`formData
      ensures formData == old(formData).(description := value)
    {
      formData := formData.(description := value);
    }

    method SetTargetDate(value: string)
      modifies this`formData
      ensures formData == old(formData).(targetDate := value)
    {
      formData := formData.(targetDate := value);
    }

    method SetCategory(value: Category)
      modifies this`formData
      ensures formData == old(formData).(category := value)
    {
      formData := formData.(category := value);
    }
  }
}
