# Countdown events: a Dafny model

This project models the logic of a client-side countdown app. Users keep a list of named events, each with a
target date and a category. Every event is shown as a card with a progress ring.

Three parts are modelled:

- **The page's event list** (`src/pages/Index.tsx`), in module `Index`.
  - The page state (the list, the event being edited, the dialog's open flag) is the class `Index.EventStore`.
  - Its handlers are methods. Each one states the new state in terms of the old.
  - The list transforms behind the handlers are pure functions: append, update by id, delete by id, and the
    active/expired split. Lemmas prove their length, order, frame, idempotence and partition properties.
  - `Index.SubmitDialog` and `Index.CancelDialog` wire the dialog to the handlers (src/pages/Index.tsx:199-204).
    Each runs the dialog's click handler, then the page handler it calls, then the dialog's prefill/reset effect,
    which runs because `open` changed.
- **The card's progress arithmetic** (`src/components/CountdownCard.tsx`), in module `CountdownCard`.
  - `totalDays` is an integer ceiling division, proved to be the ceiling of the exact quotient.
  - Progress is an exact `real`.
  - The substitutions for an expired countdown (ring at 100, day label 0) are modelled too.
- **The add/edit dialog's form** (`src/components/AddEventDialog.tsx`), in module `AddEventDialog`.
  - The class `AddEventDialog.EventForm` holds the form record and the dialog's open state.
  - Its methods are the prefill/reset effect, submit (guard, emit, close, reset), cancel and the four field
    edits.

The records of `src/types/countdown.ts` are datatypes in module `Countdown`. Instants are integer milliseconds.
Module `Seqs` gives `Array.prototype.filter` as `Filter`, with the lemmas the list proofs use. Module `Options`
gives the optional value used for `null` and optional properties.

Inputs the model does not compute:

- The fresh id (`Date.now().toString()`), the creation instant and the "now" of the active/expired split are
  parameters.
- The breakdown from the countdown hook (`TimeRemaining`: days, expired flag) is an input of the card functions.
- `new Date(string)` and the `YYYY-MM-DD` prefix of `toISOString()` are the function parameters `parseDate` and
  `formatDate`.

Two behaviours of the code worth knowing:

- Progress is clamped only below. `CountdownCard.ProgressUnclampedAbove` shows that a negative remaining-day
  count gives more than 100. For non-negative day counts, `CountdownCard.Progress` stays within `[0, 100]`.
- Only the dialog's submit guard requires a non-empty title. The page's list accepts whatever it is given.

The dialog's `open` field (`AddEventDialog.EventForm.open`) records only the last open state the dialog
requested through `onOpenChange`. The page's `dialogOpen` is the state the dialog is shown with. The two agree
after `Index.SubmitDialog` accepts a submit and after `Index.CancelDialog`. They need not agree after
`Index.EventStore.OpenAddDialog` or `Index.EventStore.EditEvent`.

## Model

| member | source | states |
|---|---|---|
| `Countdown.WithIdentity` | src/pages/Index.tsx:74-78 | the spread `{...eventData, id, createdAt}` carries exactly the submitted fields under the given id and creation instant |
| `Index.AddNew` | src/pages/Index.tsx:72-80 | adding grows the list by one; all earlier events are unchanged, and the new last event has the submitted fields, the fresh id and the creation instant |
| `Index.Update` | src/pages/Index.tsx:62-69 | updating keeps length and order; each event with the edited id becomes the submitted fields under the edited event's id and `createdAt`; every other event is untouched |
| `Index.AddOrUpdate` | src/pages/Index.tsx:61-81 | `handleAddEvent`'s list effect: one more event when nothing is edited, the same length when an event is edited; events not carrying the edited id keep their positions and values |
| `Index.Delete` | src/pages/Index.tsx:88-90 | an event is in the result exactly when it was in the list and does not carry the deleted id |
| `Index.Active` | src/pages/Index.tsx:99 | an event is active exactly when it is in the list and its target lies after `now` |
| `Index.Expired` | src/pages/Index.tsx:100 | an event is expired exactly when it is in the list and its target is at or before `now` |
| `Index.DeleteKeepsOrder` | src/pages/Index.tsx:89 | deletion distributes over concatenation and drops a single event exactly when it has the id, so the survivors keep their order |
| `Index.DeleteAbsent` | src/pages/Index.tsx:89 | deleting an id no event carries changes nothing |
| `Index.DeleteIdempotent` | src/pages/Index.tsx:89 | deleting twice equals deleting once |
| `Index.DeleteUndoesAdd` | src/pages/Index.tsx:72-90 | deleting the fresh id of an event just appended restores the list, when no earlier event carries that id |
| `Index.DeleteAfterUpdate` | src/pages/Index.tsx:64-69 | after an update, deleting the edited id gives the same list as deleting it without the update |
| `Index.UpdateAbsent` | src/pages/Index.tsx:64-69 | an update whose id no event carries changes nothing |
| `Index.UpdateIdempotent` | src/pages/Index.tsx:64-69 | applying the same update twice equals applying it once |
| `Index.ResubmitUnchanged` | src/components/AddEventDialog.tsx:31-58 | opening the dialog on an event and submitting it untouched emits that event's fields and leaves the list unchanged, when the event has a description and no icon, its date survives format and parse, and every event with its id is that event |
| `Index.PartitionExact` | src/pages/Index.tsx:99-100 | for one `now`, active and expired together hold every occurrence of every event exactly once; their sizes add up to the list length; each listed event is in exactly one part |
| `Index.PartitionKeepsOrder` | src/pages/Index.tsx:99-100 | both parts distribute over concatenation, so each keeps the original order |
| `Index.EventStore.constructor` | src/pages/Index.tsx:9-11 | the page starts with the loaded list, no event being edited and the dialog closed |
| `Index.EventStore.AddEvent` | src/pages/Index.tsx:61-81 | the list becomes `AddOrUpdate` of the old list; afterwards no event is being edited; the dialog flag is unchanged |
| `Index.EventStore.EditEvent` | src/pages/Index.tsx:83-86 | remembers the event and opens the dialog; the list is unchanged |
| `Index.EventStore.DeleteEvent` | src/pages/Index.tsx:88-90 | the list becomes `Delete` of the old list; the edited event and the dialog flag are unchanged |
| `Index.EventStore.DialogClose` | src/pages/Index.tsx:92-97 | records the open flag; closing clears the edited event, opening keeps it; the list is unchanged |
| `Index.EventStore.OpenAddDialog` | src/pages/Index.tsx:117-118 | opens the dialog and changes nothing else |
| `Index.SubmitDialog` | src/pages/Index.tsx:199-204 | a rejected submit changes neither the page nor the form; an accepted one applies `AddOrUpdate` with the emitted fields, clears the edited event, closes the dialog and leaves the form at the defaults |
| `Index.CancelDialog` | src/components/AddEventDialog.tsx:136-143 | cancel, pressed while the dialog is open, closes the dialog and clears the edited event without touching the list; the effect that follows resets the form to the defaults |
| `AddEventDialog.Prefill` | src/components/AddEventDialog.tsx:31-47 | with an event being edited, the form takes its title, formatted date, category and description (`""` when absent); without one, the form is the defaults |
| `AddEventDialog.Emit` | src/components/AddEventDialog.tsx:51-58 | nothing is emitted exactly when the title or the date is empty; otherwise exactly the title, description, parsed date and category are emitted, with no icon |
| `AddEventDialog.PrefillThenEmit` | src/components/AddEventDialog.tsx:31-58 | prefilling from an event and submitting emits that event's fields, when its title is non-empty and its date survives format and parse |
| `AddEventDialog.EventForm.constructor` | src/components/AddEventDialog.tsx:24-29 | the form starts as empty title, description and date with category personal |
| `AddEventDialog.EventForm.Sync` | src/components/AddEventDialog.tsx:31-47 | the effect sets the form to `Prefill` of the edited event |
| `AddEventDialog.EventForm.Submit` | src/components/AddEventDialog.tsx:49-67 | returns `Emit` of the old form; when rejected, form and open flag are unchanged; when accepted, the dialog is closed and the form reset to the defaults |
| `AddEventDialog.EventForm.Cancel` | src/components/AddEventDialog.tsx:139 | closes the dialog; emits nothing |
| `AddEventDialog.EventForm.SetTitle` | src/components/AddEventDialog.tsx:84 | changes only the title |
| `AddEventDialog.EventForm.SetDescription` | src/components/AddEventDialog.tsx:96 | changes only the description |
| `AddEventDialog.EventForm.SetTargetDate` | src/components/AddEventDialog.tsx:108 | changes only the date string |
| `AddEventDialog.EventForm.SetCategory` | src/components/AddEventDialog.tsx:118-120 | changes only the category |
| `CountdownCard.CeilDiv` | src/components/CountdownCard.tsx:31 | the quotient rounded up: the least `q` with `a <= q * b` |
| `CountdownCard.TotalDays` | src/components/CountdownCard.tsx:31 | `totalDays` is the least number of whole days covering the span, negative spans included |
| `CountdownCard.TotalDaysPositive` | src/components/CountdownCard.tsx:31-33 | `totalDays` is positive exactly when the target lies after the creation instant, so the `totalDays > 0` test picks out spans that end after creation |
| `CountdownCard.TotalDaysIsCeiling` | src/components/CountdownCard.tsx:31 | any integer meeting the ceiling bounds equals `totalDays` |
| `CountdownCard.TotalDaysRealCeiling` | src/components/CountdownCard.tsx:31 | `totalDays` is the ceiling of the exact quotient of the span by one day |
| `CountdownCard.TotalDaysRoundsUp` | src/components/CountdownCard.tsx:31 | a span of one day minus 1 ms is 1 day; a span of -1 ms is 0 days; a span of minus one day and 1 ms is -1 days |
| `CountdownCard.Progress` | src/components/CountdownCard.tsx:33 | progress is never negative; it is 0 when `totalDays <= 0` or when at least `totalDays` days remain; with a positive total and a non-negative remaining count it is at most 100, and exactly 100 when no day remains |
| `CountdownCard.ProgressAntitone` | src/components/CountdownCard.tsx:33 | with a fixed positive total, more remaining days never give more progress |
| `CountdownCard.ProgressUnclampedAbove` | src/components/CountdownCard.tsx:33 | there is no upper clamp: with a positive total, a negative remaining count gives progress above 100 |
| `CountdownCard.ProgressTenDaysSixLeft` | src/components/CountdownCard.tsx:32-33 | ten days in total with six remaining gives 40 |
| `CountdownCard.CardProgress` | src/components/CountdownCard.tsx:28-33 | a card's progress is 0 when the target is at or before the creation instant, is never negative, and is at most 100 for non-negative day counts |
| `CountdownCard.RingValue` | src/components/CountdownCard.tsx:94-95 | the ring receives 100 when expired and the card's progress otherwise, so always a value in `[0, 100]` for non-negative days |
| `CountdownCard.DayLabel` | src/components/CountdownCard.tsx:101-102 | the centre label shows 0 when expired and the hook's days otherwise |
| `CountdownCard.CardTenDaysSixLeft` | src/components/CountdownCard.tsx:31-33 | created on day 0, due on day 10, with six days left and not expired: the ring shows 40 and the label 6 |

## Left out

- The countdown hook `useCountdown` (src/hooks/useCountdown) is not part of this model. Its breakdown of days, hours,
  minutes and seconds, its expiry flag and its interval ticker are inputs (`TimeRemaining`), not computed.
- Loading from and saving to `localStorage`, JSON parsing and the seeded sample events (src/pages/Index.tsx:14-59)
  are browser I/O. The constructor of `Index.EventStore` takes the loaded list as a parameter.
- Clock reads and id generation are parameters. Ids are not assumed unique, because `Date.now().toString()` does
  not guarantee it.
- The two filters of the split each read the clock. The model uses a single `now` for both.
- Date library calls are not modelled: `new Date(string)`, `toISOString().split('T')`, `toLocaleDateString` and
  `formatDistanceToNow`. Date strings are opaque text, and parsing and formatting are function parameters.
- An invalid `Date` (NaN) is not modelled. Such an event would fall in neither part of the split, because every
  comparison with NaN is false.
- Floating point: the progress ratio and the day quotient are exact. JavaScript's rounding of `/` and `* 100` is
  not modelled.
- React's asynchronous, batched state updates are not modelled. Each handler's `set...` calls take effect at
  once and in order. This matches what the handlers read, because none reads state it has just set.
- The dialog's effect runs whenever `editEvent` or `open` changes. The model runs it (`Sync`) explicitly in the
  submit and cancel wiring. It does not model the effect's run after the page opens the dialog through
  `OpenAddDialog` or `EditEvent`, because the page's handlers do not see the dialog's form.
- `src/components/CircularProgress.tsx` is not modelled. It is SVG geometry over `Math.PI` plus a colour map.
- `capacitor.config.ts` is not modelled. It is static build configuration.
- JSX rendering, styling and icons are not modelled.
