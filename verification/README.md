# Hospital queue — a Dafny model

This project models the core of a desktop hospital-queue application. The
main process keeps a store of patients and tickets and answers the screens'
requests. The screens are:

- a doctor's dashboard with a waiting list and a four-room board;
- a waiting-room kiosk showing "now serving" and the next patients;
- a patient-history screen;
- the registration form.

The model states what each part does and proves properties about it.

## Files and modules

- `basics.dfy` (`Basics`): `Option`/`Result`, plus the JavaScript array operations the screens use:
  - `filter` and `find`;
  - first-occurrence de-duplication, as in `Array.from(new Set(...))`;
  - counting.
- `text.dfy` (`Text`): the string operations used:
  - `trim`, upper and lower case over ASCII, `includes`;
  - decimal `String(n)`, `padStart`;
  - a character-by-character name order, standing in for the database's collation.
- `domain.dfy` (`Domain`): the shared records and rules:
  - patients, tickets, a ticket joined with its patient, the registration form;
  - the status names, the ticket number format, the priority scale and its labels;
  - a stable newest-first sort.
- `registry.dfy` (`Registry`): the main process's handlers over an in-memory store.
  - The store is the class `Store`, whose two sequences `create-ticket` and `update-ticket-status` change.
  - The read handlers are functions of the store's contents.
- `doctor_view.dfy` (`DoctorView`): the dashboard.
  - Its state variables are the fields of the class `Dashboard`.
  - Each handler is proved against a pure transition on a `View` snapshot.
- `kiosk_display.dfy` (`KioskDisplay`): the kiosk's board, its wait estimate, the priority badges and the announcement.
- `patient_history.dfy` (`PatientHistory`): the history screen.
  - The imperative grouping loop is proved equal to a fold.
  - Its statistics, visit counts, last visit, local filter and service breakdown are also modelled.
- `new_patient_form.dfy` (`NewPatientForm`): the registration form's state machine and its submit guards.

## Modelling choices

**Store, ids and time**
- The store's ids are "P<k>" and "T<k>", where k is the record's position.
  - They are fresh by construction.
  - The database's own id scheme is not modelled.
- Timestamps are integers. `now` (the time of a call) and `midnight` (the start of the local day) are parameters.

**Screens and the store**
- A screen's request to the main process is a call on the `Store` object. Its result is what the screen then sees.
- React state setters become assignments to the class's fields.
- The search effect of the form is an explicit method that runs after the query or the mode changes.

**Newest-first listing**
- `get-tickets` orders by creation time, newest first.
- Ties keep the store's order: the sort is a stable insertion sort. Prisma leaves ties unspecified.
- The dashboard's waiting list keeps the newest-first order, so "call next" takes the newest waiting ticket (`DoctorView.CallNextIsNewest`).

**Errors and guards**
- The store refuses only what the code refuses:
  - a given patient id that is unknown;
  - an unknown ticket id on a status update.
- There are no transition guards, no room exclusivity and no validation errors, because the code has none.

## Model

| member | source | states |
|---|---|---|
| Basics.Filter | src/renderer/src/pages/DoctorView.tsx:49-50 | `Array.filter`: the result is no longer than the input, holds only elements that satisfy the predicate, and keeps every element that does |
| Basics.FilterAppend | src/renderer/src/pages/DoctorView.tsx:49-50 | filtering distributes over concatenation, so order is preserved |
| Basics.FilterMultiset | src/renderer/src/pages/PatientHistory.tsx:111-112 | a filter keeps every satisfying element exactly as often as it occurs, and nothing else |
| Basics.FirstIndex | src/renderer/src/pages/KioskDisplay.tsx:28 | none exactly when no element satisfies the predicate; otherwise the position of the first satisfying element |
| Basics.FindFirst | src/renderer/src/pages/KioskDisplay.tsx:28 | `Array.find`: none exactly when nothing satisfies the predicate; otherwise a satisfying element of the input |
| Basics.FindFirstAtFirstIndex | src/renderer/src/pages/KioskDisplay.tsx:28 | `find` returns the element at the first satisfying position |
| Basics.FindInFilter | src/renderer/src/pages/DoctorView.tsx:56-63 | a `find` on a filtered list succeeds exactly when some element satisfies both predicates, and yields the first such element of the original list |
| Basics.Dedup | src/renderer/src/pages/PatientHistory.tsx:431 | `Array.from(new Set(s))`: no repeats, and the same elements as the input |
| Basics.DedupFirstOccurrenceOrder | src/renderer/src/pages/PatientHistory.tsx:431 | the distinct values come in order of first occurrence |
| Basics.Count | src/renderer/src/pages/PatientHistory.tsx:434 | the count of a value is its multiplicity in the sequence |
| Basics.SumCountsCoversAll | src/renderer/src/pages/PatientHistory.tsx:431-435 | counts over distinct keys that cover every element add up to the sequence's length |
| Text.Trim | src/main/index.ts:96 | the result is empty exactly when every character is whitespace, otherwise it starts and ends with non-whitespace |
| Text.TrimIsSlice | src/main/index.ts:96 | `trim` removes exactly the leading and trailing whitespace: the result is the slice of `s` with only whitespace before and after it |
| Text.TrimStart | src/main/index.ts:96 | drops exactly the leading whitespace |
| Text.TrimEnd | src/main/index.ts:96 | drops exactly the trailing whitespace |
| Text.ToUpper | src/main/index.ts:120 | same length, each character upper-cased |
| Text.ToUpperIdempotent | src/main/index.ts:120 | upper-casing twice is upper-casing once, and leaves no lower-case letter |
| Text.ToLower | src/renderer/src/pages/PatientHistory.tsx:186-187 | same length, each character lower-cased |
| Text.ContainsAt | src/renderer/src/pages/PatientHistory.tsx:186-187 | `includes` holds exactly when the substring occurs at some position |
| Text.ContainsEmpty | src/renderer/src/pages/PatientHistory.tsx:186-187 | every string includes the empty string |
| Text.LowerTrimsToTwo | src/renderer/src/components/NewPatientForm.tsx:51 | lower-casing does not change whether the trimmed text has at least two characters |
| Text.ContainsKeepsTwo | src/renderer/src/components/NewPatientForm.tsx:51 | a string that contains a text whose trim has two or more characters has such a trim too |
| Text.LowerContainsKeepsTwo | src/renderer/src/components/NewPatientForm.tsx:51 | the same, when the containment ignores case |
| Text.NatToString | src/main/index.ts:52 | `String(n)`: at least one digit, all digits, no leading zero except for 0 |
| Text.ParseNatToString | src/main/index.ts:52 | the decimal text reads back as the number |
| Text.NatToStringInjective | src/main/index.ts:52 | different numbers have different decimal texts |
| Text.PadStart | src/main/index.ts:52 | `padStart`: the result has the target width, or the input's length when that is larger; the input is at the end and only fill characters precede it |
| Text.ParseLeadingZeros | src/main/index.ts:52 | leading zeros do not change the number a digit string reads as |
| Text.LexLeTotal | src/main/index.ts:105 | the name order is total |
| Text.LexLeTransitive | src/main/index.ts:105 | the name order is transitive |
| Domain.WithField | src/renderer/src/components/NewPatientForm.tsx:106-108 | an edit of one form field changes that field to the value and no other field |
| Domain.StatusNamesUpper | src/main/index.ts:120 | the three status names are already upper case |
| Domain.TicketNumber | src/main/index.ts:52 | a ticket number starts with "A-" and has at least three digits |
| Domain.TicketNumberFormat | src/main/index.ts:52 | the number is "A-", then zeros up to three digits, then the count's decimal text; nothing is truncated |
| Domain.TicketNumberShape | src/main/index.ts:52 | the number is "A-" followed by the padded decimal text of the count |
| Domain.TicketNumberValue | src/main/index.ts:51-52 | the digits of a ticket number read back as the count it was made from |
| Domain.TicketNumberInjective | src/main/index.ts:51-52 | different counts give different ticket numbers |
| Domain.PriorityFromText | src/main/index.ts:55-61 | the result is in 0..2; it is 1 exactly for "Urgent" and 2 exactly for "Critical"; any other or missing text gives 0 |
| Domain.PriorityText | src/renderer/src/pages/KioskDisplay.tsx:102-106 | "Critical" exactly for 2, "Urgent" exactly for 1, "Normal" for every other priority |
| Domain.PriorityTextRoundTrip | src/main/index.ts:55-61 | the label of a stored priority maps back to that priority, and a chosen label survives the round trip |
| Domain.SortedDescPairwise | src/main/index.ts:90 | in a newest-first list, an earlier element is never older than a later one |
| Domain.FilterSortedDesc | src/renderer/src/pages/DoctorView.tsx:49-50 | filtering a newest-first list keeps it newest first |
| Domain.InsertDesc | src/main/index.ts:90 | inserting into a sorted list keeps it sorted and adds exactly the one element |
| Domain.SortDesc | src/main/index.ts:90 | the result is newest first and a permutation of the input |
| Domain.SortDescSameElements | src/main/index.ts:90 | the sort loses and invents no element |
| Domain.SortDescOfSorted | src/main/index.ts:90 | a list that is already newest first is left as it is; the sort is stable on sorted input |
| Registry.GetPatient | src/main/index.ts:110-114 | `get-patient`: none exactly when no stored patient has the id, otherwise a stored patient with that id |
| Registry.IdForInjective | src/main/index.ts:42-47 | different positions get different patient ids and different ticket ids |
| Registry.TicketsIndexedAt | src/main/index.ts:51-52 | in a well-formed store, the k-th ticket has the k-th id and the number for count k |
| Registry.WellFormedAddPatient | src/main/index.ts:42-47 | storing a new patient keeps the store invariant, and the new patient can be found |
| Registry.WellFormedAddTicket | src/main/index.ts:64-77 | storing a ticket numbered from the current count, for a known patient, keeps the store invariant |
| Registry.WellFormedReplaceTicket | src/main/index.ts:133-137 | updating a ticket that keeps its id, number and patient keeps the store invariant |
| Registry.TicketNumbersIncrease | src/main/index.ts:51-52 | with no deletion, the i-th ticket's number reads as i+1, so numbers strictly increase in creation order and are distinct |
| Registry.TicketIdsUnique | src/main/index.ts:64-77 | no two stored tickets share an id |
| Registry.NewTicket | src/main/index.ts:64-77 | a created ticket is WAITING; it is numbered count+1; its type is the service, or "General Consultation" when that is empty or missing; its priority is mapped into 0..2; its notes are null exactly when empty; it belongs to the resolved patient; it has no room and no completion time; it is created at the call's time, and its last-update time is assumed to start at that time too (the handler does not set it; the schema's default, not part of this model, would) |
| Registry.ApplyStatusUpdate | src/main/index.ts:117-137 | the status is stored upper-cased and `updatedAt` is set. On COMPLETED, `completedAt` is set and the room is cleared, even when one was passed. Otherwise only a given non-zero room overwrites the room. No other field changes, and the previous status is not checked |
| Registry.BuildUpdateData | src/main/index.ts:119-131 | the update record built field by field, merged into any ticket, has exactly the effect `ApplyStatusUpdate` describes |
| Registry.StatusUpdateIdempotent | src/main/index.ts:117-137 | applying the same update twice at the same time is the same as applying it once |
| Registry.TicketIndex | src/main/index.ts:133-134 | none exactly when no ticket has the id, otherwise the position of a ticket with it |
| Registry.Join | src/main/index.ts:89 | `include: { patient: true }`: one row per ticket, each with the ticket's patient or null |
| Registry.ListTickets | src/main/index.ts:87-92 | `get-tickets`: every stored ticket exactly once, with its patient, newest first |
| Registry.ActiveTreatments | src/main/index.ts:147-155 | `get-active-treatments`: exactly the IN_TREATMENT tickets, each as often as stored (a permutation of them), most recently updated first |
| Registry.TodaysCompleted | src/main/index.ts:158-171 | `get-todays-completed`: exactly the COMPLETED tickets completed at or after midnight, each as often as stored |
| Registry.TodaysCompletedAppend | src/main/index.ts:162-170 | the query asks for no ordering; the model fixes store order, stated here: a ticket added to the store is reported after all earlier ones when it qualifies, and the earlier report is unchanged |
| Registry.InsertByName | src/main/index.ts:105 | inserting into a name-sorted list keeps it sorted and adds exactly the one patient |
| Registry.SortByName | src/main/index.ts:105 | the result is in ascending name order and a permutation of the input |
| Registry.SortedByNamePairwise | src/main/index.ts:105 | in a name-sorted list, an earlier name never sorts after a later one |
| Registry.Matching | src/main/index.ts:98-103 | exactly the patients whose name contains the query, ignoring case |
| Registry.SortByNameSameElements | src/main/index.ts:105 | sorting by name loses and invents no patient |
| Registry.SearchPatients | src/main/index.ts:95-107 | `search-patients`: a whitespace-only query gives nothing. Otherwise at most ten patients, all stored and matching the query ignoring case, in ascending name order; min(10, matches) of them; all matches when there are at most ten |
| Registry.Store.constructor | src/main/index.ts:26-171 | the store starts empty and well formed |
| Registry.Store.CreateTicket | src/main/index.ts:26-84 | `create-ticket`. A given but unknown patient id fails and changes nothing. A given known id appends one ticket for that patient. No id appends exactly one new patient, even with an empty name, and one ticket for them. The store stays well formed |
| Registry.Store.UpdateTicketStatus | src/main/index.ts:117-144 | `update-ticket-status`. An unknown id fails and changes nothing. Otherwise exactly that ticket is replaced by `ApplyStatusUpdate` of it, and the other tickets and all patients are unchanged |
| Registry.CreatedTicketIsListed | src/main/index.ts:64-92 | after a create, the ticket's patient is found and `get-tickets` lists the ticket as WAITING |
| Registry.NewPatientIsFound | src/main/index.ts:40-47 | a patient created without an id is found by `get-patient` under its new id |
| Registry.CompletedIsReportedToday | src/main/index.ts:128-171 | completing a ticket, whatever its previous status, makes `get-todays-completed` report it with no room, and `get-active-treatments` no longer reports it |
| Registry.StartedIsActive | src/main/index.ts:117-155 | starting a ticket in a non-zero room makes `get-active-treatments` report it in that room, and it is no longer waiting |
| DoctorView.WaitingQueue | src/renderer/src/pages/DoctorView.tsx:49-50 | the waiting list holds exactly the WAITING tickets of the fetch |
| DoctorView.WaitingQueueNewestFirst | src/renderer/src/pages/DoctorView.tsx:49-50 | the waiting list keeps the fetch's newest-first order |
| DoctorView.CallNextIsNewest | src/renderer/src/pages/DoctorView.tsx:147-155 | the head of the waiting list is a waiting ticket created no earlier than any other waiting ticket |
| DoctorView.OccupantIsFirst | src/renderer/src/pages/DoctorView.tsx:56-63 | a room has an occupant exactly when some ticket is IN_TREATMENT in it, and the occupant is the first such ticket |
| DoctorView.RefreshRooms | src/renderer/src/pages/DoctorView.tsx:56-64 | a refresh keeps the room list's length, ids, names and doctors |
| DoctorView.RefreshedRoom | src/renderer/src/pages/DoctorView.tsx:56-63 | after a refresh, a room shows its first IN_TREATMENT ticket; it is "active" exactly when there is one and "empty" exactly when there is none |
| DoctorView.SelectedOccupant | src/renderer/src/pages/DoctorView.tsx:67-70 | `find(r => r.id === id)?.currentPatient || null`: the current patient of the first room with the id, and null when no room has it |
| DoctorView.FindTicket | src/renderer/src/pages/DoctorView.tsx:92-96 | none exactly when no fetched ticket has the id, otherwise a fetched ticket with it |
| DoctorView.WaitTime | src/renderer/src/pages/DoctorView.tsx:271 | a whole number of quarter hours, at least 15 for a list position |
| DoctorView.WaitTimeIncreasing | src/renderer/src/pages/DoctorView.tsx:271 | the estimate strictly increases down the list |
| DoctorView.EmergencyRoom | src/renderer/src/pages/DoctorView.tsx:227 | none exactly when no room name contains "emergency" ignoring case, otherwise such a room |
| DoctorView.EmergencyRoomOnBoard | src/renderer/src/pages/DoctorView.tsx:14-19 | on the fixed board, the emergency room found is the third room, "Emergency" |
| DoctorView.BoardNames | src/renderer/src/pages/DoctorView.tsx:14-19 | of the first three rooms, only the third has "emergency" in its name |
| DoctorView.LoadedClearsError | src/renderer/src/pages/DoctorView.tsx:41-70 | a successful load clears the error message, so an error set just before it does not show |
| DoctorView.ListedRowWithId | src/main/index.ts:87-92 | in a well-formed store, the listed row with a ticket's id is that ticket's row |
| DoctorView.ListingFindsTicket | src/renderer/src/pages/DoctorView.tsx:92-96 | looking up a stored ticket's id in the fetch finds that ticket with its patient |
| DoctorView.StartShowsTicket | src/renderer/src/pages/DoctorView.tsx:78-98 | after starting a ticket in a non-zero room, it is the current treatment, IN_TREATMENT in that room, the room is selected and shown active, and the ticket has left the waiting list |
| DoctorView.StartedRoomActive | src/renderer/src/pages/DoctorView.tsx:56-63 | a room in which a fetched ticket is IN_TREATMENT is shown active after the reload |
| DoctorView.CompleteClearsTicket | src/renderer/src/pages/DoctorView.tsx:122-140 | after completing a ticket, no room shows it, it is not waiting, and there is no current treatment, no selected room and no notes |
| DoctorView.WalkInJoinsQueue | src/renderer/src/pages/DoctorView.tsx:163-193 | a walk-in registered from the dashboard appears in the reloaded waiting list with its new patient |
| DoctorView.Dashboard.constructor | src/renderer/src/pages/DoctorView.tsx:12-32 | the initial state: four fixed empty rooms, nothing selected, a blank walk-in form |
| DoctorView.Dashboard.LoadDoctorData | src/renderer/src/pages/DoctorView.tsx:41-75 | the waiting list and board are recomputed from the fetch, the error is cleared, and with a room selected the current treatment is its occupant |
| DoctorView.Dashboard.StartTreatment | src/renderer/src/pages/DoctorView.tsx:78-106 | the store applies IN_TREATMENT with the room to the ticket. An unknown ticket leaves only an error message. Otherwise the screen reloads, selects the room and shows the started ticket |
| DoctorView.Dashboard.AssignPatientToRoom | src/renderer/src/pages/DoctorView.tsx:108-120 | room 0 or an empty ticket id changes nothing in the store or on screen; otherwise it is `StartTreatment` |
| DoctorView.Dashboard.CompleteTreatment | src/renderer/src/pages/DoctorView.tsx:122-145 | the store applies COMPLETED with no room. An unknown ticket leaves only an error message. Otherwise the screen reloads and clears the current treatment, the selected room and the notes |
| DoctorView.Dashboard.CallNextPatient | src/renderer/src/pages/DoctorView.tsx:147-155 | an empty waiting list changes nothing; otherwise the head of the list is started in the room |
| DoctorView.Dashboard.HandleCreateNewPatient | src/renderer/src/pages/DoctorView.tsx:163-201 | a blank name changes nothing. Otherwise exactly one new patient and one ticket for them are stored from the form, the form is reset to its defaults, and the screen reloads |
| DoctorView.Dashboard.EditNewPatientForm | src/renderer/src/pages/DoctorView.tsx:715-760 | typing in the walk-in form changes that one field and nothing else |
| DoctorView.Dashboard.EditNotes | src/renderer/src/pages/DoctorView.tsx:490 | typing in the notes box changes only the notes |
| DoctorView.Dashboard.HandleAddNotes | src/renderer/src/pages/DoctorView.tsx:204-213 | blank notes change nothing; otherwise only the notes are cleared |
| DoctorView.Dashboard.HandleEmergencyProtocol | src/renderer/src/pages/DoctorView.tsx:223-231 | selects the first room whose name contains "emergency", only when it has no patient; nothing else changes |
| DoctorView.Dashboard.SelectRoom | src/renderer/src/pages/DoctorView.tsx:367-372 | clicking a room selects it and shows its patient, or none |
| DoctorView.Dashboard.ClearRoomSelection | src/renderer/src/pages/DoctorView.tsx:344 | only the room selection is cleared |
| KioskDisplay.KioskBoard | src/renderer/src/pages/KioskDisplay.tsx:23-34 | the waiting count is the number of WAITING tickets and the next tickets are the first min(5, n) of them in fetched order; the current ticket, if any, is a fetched IN_TREATMENT ticket |
| KioskDisplay.NowServingIsFirst | src/renderer/src/pages/KioskDisplay.tsx:28-29 | "now serving" is none exactly when no ticket is IN_TREATMENT, otherwise the first such ticket in fetched order |
| KioskDisplay.NowServingIsNewestActive | src/renderer/src/pages/KioskDisplay.tsx:28-29 | on the store's listing, "now serving" is the IN_TREATMENT ticket created last, and `get-active-treatments` reports it |
| KioskDisplay.ListedIsActive | src/main/index.ts:147-155 | a listed IN_TREATMENT ticket is among the active treatments |
| KioskDisplay.NextUpMatchesDoctor | src/renderer/src/pages/KioskDisplay.tsx:32-34 | the next tickets are exactly the first entries of the doctor's waiting list from the same fetch, and the count is that list's length |
| KioskDisplay.WaitTime | src/renderer/src/pages/KioskDisplay.tsx:91-94 | max(5, (i+1)·15): never under 5 or under (i+1)·15, and equal to one of them |
| KioskDisplay.WaitTimeOnList | src/renderer/src/pages/KioskDisplay.tsx:91-94 | for a list position the floor never applies: the kiosk agrees with the dashboard, shows at least 15, and strictly increases down the list |
| KioskDisplay.ColorFollowsText | src/renderer/src/pages/KioskDisplay.tsx:96-106 | two priorities get the same badge colour exactly when they get the same label |
| KioskDisplay.AnnouncementParts | src/renderer/src/pages/KioskDisplay.tsx:58 | the sentence starts with "Patient " and the name, and ends with the room and a full stop |
| KioskDisplay.AnnouncedRoom | src/renderer/src/pages/KioskDisplay.tsx:177-181 | a ticket started in a non-zero room is announced with "Room <id>"; after completion, with "treatment" |
| KioskDisplay.Kiosk.constructor | src/renderer/src/pages/KioskDisplay.tsx:5-10 | the kiosk starts with nothing shown and not announcing |
| KioskDisplay.Kiosk.LoadKioskData | src/renderer/src/pages/KioskDisplay.tsx:23-40 | the board is recomputed from the store's listing; the announcing flag is untouched |
| KioskDisplay.Kiosk.AnnouncePatient | src/renderer/src/pages/KioskDisplay.tsx:52-75 | while announcing, nothing happens. Otherwise the sentence is produced, and the kiosk stays announcing exactly when speech is available. The board is untouched |
| KioskDisplay.Kiosk.SpeechEnded | src/renderer/src/pages/KioskDisplay.tsx:68-70 | the end of speech drops the flag and changes nothing else |
| PatientHistory.EntryIndex | src/renderer/src/pages/PatientHistory.tsx:58-72 | none exactly when no entry has the id, otherwise the position of one that has it |
| PatientHistory.EntriesGrouped | src/renderer/src/pages/PatientHistory.tsx:58-74 | the grouping has one entry per distinct patient id, in order of first appearance. Each entry holds exactly that patient's tickets in fetched order, with the identity of the first of them. Every ticket with a patient is filed |
| PatientHistory.GroupedStep | src/renderer/src/pages/PatientHistory.tsx:60-72 | filing one more ticket keeps those grouping properties |
| PatientHistory.GroupTickets | src/renderer/src/pages/PatientHistory.tsx:58-74 | the `forEach` loop builds exactly the grouping `Entries` defines |
| PatientHistory.GroupSizes | src/renderer/src/pages/PatientHistory.tsx:58-74 | the entries' ticket counts add up to the number of tickets with a patient, so each is filed exactly once |
| PatientHistory.StatsCount | src/renderer/src/pages/PatientHistory.tsx:77-94 | the patient total is the number of distinct patients named, the open cases are the waiting tickets plus those in treatment, and today's visits never exceed the tickets |
| PatientHistory.OpenSplits | src/renderer/src/pages/PatientHistory.tsx:86-88 | open tickets are exactly the waiting ones plus those in treatment |
| PatientHistory.VisitCountIsTicketCount | src/renderer/src/pages/PatientHistory.tsx:168-171 | the visit count shown is the number of fetched tickets naming the patient, or 0 for an absent patient |
| PatientHistory.LatestIndex | src/renderer/src/pages/PatientHistory.tsx:178-182 | the reduce keeps a ticket no other ticket is newer than, and no earlier ticket is as new: ties go to the first |
| PatientHistory.LastVisit | src/renderer/src/pages/PatientHistory.tsx:173-183 | null exactly when the patient has no visits |
| PatientHistory.PatientTicketsSpec | src/renderer/src/pages/PatientHistory.tsx:111-115 | the detail list holds exactly the patient's fetched tickets, each as often as fetched, newest first |
| PatientHistory.SortDescHead | src/renderer/src/pages/PatientHistory.tsx:113-115 | the stable newest-first sort puts the first of the newest tickets at the head |
| PatientHistory.LastVisitMatchesDetail | src/renderer/src/pages/PatientHistory.tsx:105-183 | the last visit shown in the list is the first ticket of the patient's detail list from the same fetch, even with ties |
| PatientHistory.FilteredPatients | src/renderer/src/pages/PatientHistory.tsx:185-188 | exactly the patients whose name or id contains the query, ignoring case |
| PatientHistory.EmptyQueryKeepsAll | src/renderer/src/pages/PatientHistory.tsx:185-188 | an empty query keeps every patient, in order |
| PatientHistory.VisitsOfTypeCount | src/renderer/src/pages/PatientHistory.tsx:434 | the visits of a type are that type's multiplicity among the tickets' types |
| PatientHistory.TotalVisitsCounts | src/renderer/src/pages/PatientHistory.tsx:431-435 | the breakdown's total is the sum of the types' multiplicities |
| PatientHistory.BreakdownCoversAll | src/renderer/src/pages/PatientHistory.tsx:431-435 | each type is listed once, and every ticket's type is listed. Every listed count is positive, and the counts add up to the number of tickets |
| PatientHistory.History.constructor | src/renderer/src/pages/PatientHistory.tsx:35-46 | the initial state: no patients, zero statistics, list mode, empty query |
| PatientHistory.History.LoadPatients | src/renderer/src/pages/PatientHistory.tsx:49-102 | the patient list is the grouping of the fetch and the statistics are computed from it; the error is cleared and nothing else changes |
| PatientHistory.History.LoadPatientTickets | src/renderer/src/pages/PatientHistory.tsx:105-124 | the detail list is the patient's tickets newest first; the error is cleared and nothing else changes |
| PatientHistory.History.HandleSelectPatient | src/renderer/src/pages/PatientHistory.tsx:130-134 | selects the patient, shows the detail view and loads that patient's tickets |
| PatientHistory.History.EditSearch | src/renderer/src/pages/PatientHistory.tsx:238 | only the search query changes |
| NewPatientForm.InitialFormDefaults | src/renderer/src/components/NewPatientForm.tsx:25-47 | the initial form has a blank name, the first service "General Consultation", priority "Normal" (0) and no patient id |
| NewPatientForm.Submission | src/renderer/src/components/NewPatientForm.tsx:80-104 | new-patient mode submits the form unchanged exactly when the name is not blank. Existing-patient mode submits exactly when a patient is selected, with the selection's id and name and the form's other fields |
| NewPatientForm.SubmissionRequest | src/renderer/src/components/NewPatientForm.tsx:80-104 | a new-patient submission makes the store register a patient under a non-blank name. A returning patient's submission names a stored patient that the store finds |
| NewPatientForm.SearchResultNameSearches | src/renderer/src/components/NewPatientForm.tsx:51 | a patient returned by a search the form issued has a name that would itself issue a search |
| NewPatientForm.PickedResultStaysSelected | src/renderer/src/components/NewPatientForm.tsx:110-114 | a patient picked from the results stays selected after the re-render, and a submission then goes to that patient |
| NewPatientForm.FormState.constructor | src/renderer/src/components/NewPatientForm.tsx:35-47 | starts in new-patient mode, with no query, results or selection, and the initial form |
| NewPatientForm.FormState.HandleSubmit | src/renderer/src/components/NewPatientForm.tsx:80-104 | what is handed to the caller is the `Submission` of the current mode, form and selection |
| NewPatientForm.FormState.UpdateField | src/renderer/src/components/NewPatientForm.tsx:106-108 | only the named form field changes |
| NewPatientForm.FormState.HandlePatientSelect | src/renderer/src/components/NewPatientForm.tsx:110-114 | selects the patient, sets the query to their name and empties the results; nothing else changes |
| NewPatientForm.FormState.ClearSelection | src/renderer/src/components/NewPatientForm.tsx:116-120 | no selection, empty query, no results; nothing else changes |
| NewPatientForm.FormState.ChooseNewPatient | src/renderer/src/components/NewPatientForm.tsx:133-136 | switches to new-patient mode and clears any selection, query and results |
| NewPatientForm.FormState.ChooseExistingPatient | src/renderer/src/components/NewPatientForm.tsx:151 | switches to existing-patient mode and changes nothing else |
| NewPatientForm.FormState.EditSearchQuery | src/renderer/src/components/NewPatientForm.tsx:198 | only the query changes |
| NewPatientForm.FormState.SearchEffect | src/renderer/src/components/NewPatientForm.tsx:50-78 | in existing-patient mode with a trimmed query of two or more characters, a search for the query is issued and the spinner shown. Otherwise the results and the selection are cleared. Mode, query and form never change |
| NewPatientForm.FormState.SearchFinished | src/renderer/src/components/NewPatientForm.tsx:58-66 | a successful search replaces the results; either way the spinner stops |
| NewPatientForm.FormState.SelectResult | src/renderer/src/components/NewPatientForm.tsx:110-114 | clicking a result, then the effect's re-run: the pick survives exactly when the query text did not change or the name itself issues a search; the results are emptied, and the spinner is raised exactly when it was already up or the changed query issues a search |

## Left out

**Plumbing and side effects**
- Electron start-up, windows, the IPC bridge and its type declarations: these are plumbing, so the screens call the store directly.
- Prisma itself: the store is two in-memory sequences.
  - Its id generation becomes "P<k>"/"T<k>".
  - `mode: 'insensitive'` is ASCII lower-casing of both sides.
- Concurrency: async/await, polling timers, the form's 300 ms debounce and its cleanup, and the count-then-create race.
  - Every call is sequential.
  - Ticket numbers are unique only under sequential creates.
- Loading flags, `alert`, `console`, the `'speechSynthesis' in window` check and speech itself.
  - Speech availability is a parameter of `AnnouncePatient`.
  - The end of speech is the `SpeechEnded` call.
- The kiosk's auto-refresh toggle, clock and "last updated" time.
- `callSpecificPatient` and the prescription and lab-referral modals: they only show alerts.
- The random prescription.
- `calculateStats`, whose mock figures use floating point.

**Failures and data not modelled**
- Fetch failures on the screens:
  - the `catch` branches of `loadDoctorData`, `loadKioskData`, `loadPatients` and `loadPatientTickets`;
  - the search error in the form.
- The dashboard's create-error branch: a request without a patient id cannot fail, so it is never taken.
- The store's read calls cannot fail in the model.
- Date formatting, locales and `new Date(string)` parsing: timestamps are integers, and "today" is a `midnight` parameter.
- The patient's phone and email, and the ticket's diagnosis and prescription fields: no core operation reads or writes them.
- `priorityMap[data.priority] || 0` on a key such as "constructor" would return a function rather than a number. JavaScript prototype keys are not modelled; every text other than "Urgent" and "Critical" gives 0.
- `patient?.name` of a ticket without a patient is the text "undefined" in the announcement (`KioskDisplay.NameText`). No other `undefined` rendering is modelled.
- The walk-in's `onSubmit`/`onCancel` callbacks in the form belong to the parent screens. `HandleSubmit` returns what is handed to them.

**Screens not in this model**
- Reception.tsx, Layout.tsx, Sidebar.tsx, Modal.tsx, App.tsx and the styling configuration are not part of this model. They are UI composition, and Reception's priority helpers repeat the kiosk's.
- All JSX rendering.

- Case mapping is ASCII only: `Text.ToUpper` and `Text.ToLower` map 'a'..'z' and 'A'..'Z' and leave every other character as it is. JavaScript's `toUpperCase`/`toLowerCase` map all of Unicode. This affects the status at src/main/index.ts:120, the emergency-room match at src/renderer/src/pages/DoctorView.tsx:227 and the local filter at src/renderer/src/pages/PatientHistory.tsx:186-187; for example, "Élodie" and "élodie" match in JavaScript but not in the model.
- Lengths count characters, while JavaScript's `.length` counts UTF-16 code units. In the search trigger at src/renderer/src/components/NewPatientForm.tsx:51, a single character outside the Basic Multilingual Plane issues a search in JavaScript but not in the model (`NewPatientForm.SearchIssued`).
- Name order: `orderBy: { name: 'asc' }` (src/main/index.ts:105) sorts by the database's collation. The model fixes a character-by-character order (`Text.LexLe`), so where a locale collation puts "alice" before "Bob", the model puts "Bob" first.

**Weaker contracts**
- Registry.SearchPatients: when more than ten patients match, the contract says that ten matching patients are returned in name order. It does not say that they are the first ten by name.
- Registry.ListTickets: ties in creation time keep the store's order. The database leaves their order unspecified, so the model fixes one possible order.
- Registry.TodaysCompleted: the database leaves the order of `get-todays-completed` unspecified (src/main/index.ts:162-170 has no `orderBy`); the model fixes store order, one possible order (`Registry.TodaysCompletedAppend`).
- PatientHistory.LastVisit: its own contract only says when it is null. Which ticket it returns is stated by `PatientHistory.LatestIndex` and `PatientHistory.LastVisitMatchesDetail`.
