/**
 * The doctor's dashboard: the waiting list and the four-room board it
 * derives from the fetched ticket list, and the handlers that start,
 * assign, complete and call patients, register a walk-in patient, save
 * notes and pick the emergency room. The screen's state is a class whose
 * fields are the component's state variables; every handler is proved
 * against a pure transition on a `View` snapshot of that state.
 */
module DoctorView {
  import opened Basics
  import opened Text
  import opened Domain
  import opened Registry

  /** A treatment room card; `currentPatient` is the ticket shown in it. */
  datatype Room = Room(id: int, name: string, doctor: string, status: string, currentPatient: Option<TicketRow>)

  const ACTIVE: string := "active"
  const EMPTY: string := "empty"

  /** The fixed room list the dashboard starts from. */
  const INITIAL_ROOMS: seq<Room> := [
    Room(1, "Examination 1", "Dr. Smith", EMPTY, None),
    Room(2, "Examination 2", "Dr. Johnson", EMPTY, None),
    Room(3, "Emergency", "Dr. Williams", EMPTY, None),
    Room(4, "Consultation", "Dr. Brown", EMPTY, None)
  ]

  /** The walk-in form's defaults (the dashboard's form has no patient id). */
  const BLANK_FORM: FormData := FormData("", DEFAULT_SERVICE, "Normal", "", None)

  const START_ERROR: string := "Error starting treatment. Check console for details."
  const COMPLETE_ERROR: string := "Error completing treatment. Check console for details."

  /** Refreshing the board never changes which rooms there are. */
  predicate RoomsFixed(rooms: seq<Room>) {
    && |rooms| == |INITIAL_ROOMS|
    && forall i :: 0 <= i < |rooms| ==>
         rooms[i].id == INITIAL_ROOMS[i].id && rooms[i].name == INITIAL_ROOMS[i].name
         && rooms[i].doctor == INITIAL_ROOMS[i].doctor
  }

  /** The waiting list: the WAITING tickets, in fetched order. */
  function WaitingQueue(rows: seq<TicketRow>): (r: seq<TicketRow>)
    ensures forall i :: 0 <= i < |r| ==> IsWaiting(r[i]) && r[i] in rows
    ensures forall i :: 0 <= i < |rows| && IsWaiting(rows[i]) ==> rows[i] in r
  {
    Filter(IsWaiting, rows)
  }

  /** Filtering keeps the newest-first order of `get-tickets`. */
  lemma {:induction false} WaitingQueueNewestFirst(rows: seq<TicketRow>)
    requires SortedDesc(rows, ByCreatedAt)
    ensures SortedDesc(WaitingQueue(rows), ByCreatedAt)
  {
    FilterSortedDesc(IsWaiting, rows, ByCreatedAt);
  }

  /**
   * "Call next" takes the head of the waiting list, and on a newest-first
   * listing that is the most recently created waiting ticket: no waiting
   * ticket was created after it.
   */
  lemma {:induction false} CallNextIsNewest(rows: seq<TicketRow>, i: nat)
    requires SortedDesc(rows, ByCreatedAt)
    requires i < |rows| && IsWaiting(rows[i])
    ensures WaitingQueue(rows) != []
    ensures WaitingQueue(rows)[0].ticket.createdAt >= rows[i].ticket.createdAt
  {
    var q := WaitingQueue(rows);
    WaitingQueueNewestFirst(rows);
    assert rows[i] in q;
    var m :| 0 <= m < |q| && q[m] == rows[i];
    SortedDescPairwise(q, ByCreatedAt, 0, m);
  }

  /** The ticket is being treated in room `roomId`. */
  predicate InRoom(roomId: int, r: TicketRow) {
    IsInTreatment(r) && r.ticket.roomId == Some(roomId)
  }

  /**
   * The ticket a room shows: the first IN_TREATMENT ticket of the list whose
   * room is this one, or none.
   */
  function Occupant(rows: seq<TicketRow>, roomId: int): Option<TicketRow> {
    FindFirst((t: TicketRow) => t.ticket.roomId == Some(roomId), Filter(IsInTreatment, rows))
  }

  /**
   * A room has an occupant exactly when some ticket is being treated in it,
   * and the occupant is the first such ticket of the list.
   */
  lemma {:induction false} OccupantIsFirst(rows: seq<TicketRow>, roomId: int)
    ensures Occupant(rows, roomId).Some? <==> exists i :: 0 <= i < |rows| && InRoom(roomId, rows[i])
    ensures Occupant(rows, roomId).Some? ==>
              exists i :: 0 <= i < |rows| && rows[i] == Occupant(rows, roomId).value && InRoom(roomId, rows[i])
                          && forall j :: 0 <= j < i ==> !InRoom(roomId, rows[j])
  {
    FindInFilter(IsInTreatment, (t: TicketRow) => t.ticket.roomId == Some(roomId), rows);
  }

  /**
   * The room board after a refresh: the same rooms with the same names and
   * doctors; each room shows its occupant and is "active" exactly when it
   * has one.
   */
  function RefreshRooms(rooms: seq<Room>, rows: seq<TicketRow>): (r: seq<Room>)
    ensures |r| == |rooms|
    ensures forall i :: 0 <= i < |r| ==>
              r[i].id == rooms[i].id && r[i].name == rooms[i].name && r[i].doctor == rooms[i].doctor
    ensures RoomsFixed(rooms) ==> RoomsFixed(r)
  {
    seq(|rooms|, i requires 0 <= i < |rooms| => Refreshed(rooms[i], rows))
  }

  function Refreshed(room: Room, rows: seq<TicketRow>): Room {
    var occupant := Occupant(rows, room.id);
    room.(status := if occupant.Some? then ACTIVE else EMPTY, currentPatient := occupant)
  }

  /**
   * After a refresh, room `i` shows the first ticket being treated in it, is
   * "active" exactly when there is one, and "empty" otherwise.
   */
  lemma {:induction false} RefreshedRoom(rooms: seq<Room>, rows: seq<TicketRow>, i: nat)
    requires i < |rooms|
    ensures var room := RefreshRooms(rooms, rows)[i];
            && room.currentPatient == Occupant(rows, rooms[i].id)
            && (room.status == ACTIVE <==> exists j :: 0 <= j < |rows| && InRoom(rooms[i].id, rows[j]))
            && (room.status == EMPTY <==> room.currentPatient.None?)
  {
    OccupantIsFirst(rows, rooms[i].id);
  }

  /** The current patient of the room with this id (`find(...)?.currentPatient || null`). */
  function SelectedOccupant(rooms: seq<Room>, roomId: int): (r: Option<TicketRow>)
    ensures r.Some? ==> exists i :: 0 <= i < |rooms| && rooms[i].id == roomId && rooms[i].currentPatient == r
    ensures (forall i :: 0 <= i < |rooms| ==> rooms[i].id != roomId) ==> r.None?
    ensures forall i :: 0 <= i < |rooms| && rooms[i].id == roomId && (forall j :: 0 <= j < i ==> rooms[j].id != roomId) ==>
              r == rooms[i].currentPatient
  {
    FindFirstAtFirstIndex((room: Room) => room.id == roomId, rooms);
    match FindFirst((room: Room) => room.id == roomId, rooms)
    case None => None
    case Some(room) => room.currentPatient
  }

  /** `tickets.find(t => t.id === id)`. */
  function FindTicket(rows: seq<TicketRow>, id: string): (r: Option<TicketRow>)
    ensures r.None? <==> forall i :: 0 <= i < |rows| ==> rows[i].ticket.id != id
    ensures r.Some? ==> r.value in rows && r.value.ticket.id == id
  {
    if rows == [] then None
    else if rows[0].ticket.id == id then Some(rows[0])
    else FindTicket(rows[1..], id)
  }

  /** The wait shown for the `index`-th waiting ticket, in minutes: 15 per place. */
  function WaitTime(index: int): (minutes: int)
    ensures index >= 0 ==> minutes >= 15
    ensures minutes % 15 == 0
  {
    (index + 1) * 15
  }

  /** A later place in the queue always shows a longer wait. */
  lemma WaitTimeIncreasing(i: int, j: int)
    requires i < j
    ensures WaitTime(i) < WaitTime(j)
  {
  }

  /** The room's name contains "emergency", ignoring case. */
  predicate IsEmergencyRoom(room: Room) {
    Contains(ToLower(room.name), "emergency")
  }

  /** The first room whose name contains "emergency", ignoring case. */
  function EmergencyRoom(rooms: seq<Room>): (r: Option<Room>)
    ensures r.Some? ==> r.value in rooms && IsEmergencyRoom(r.value)
    ensures r.None? <==> forall i :: 0 <= i < |rooms| ==> !IsEmergencyRoom(rooms[i])
  {
    FindFirst(IsEmergencyRoom, rooms)
  }

  /** On the dashboard's board that is the third room, "Emergency". */
  lemma {:induction false} EmergencyRoomOnBoard(rooms: seq<Room>)
    requires RoomsFixed(rooms)
    ensures EmergencyRoom(rooms) == Some(rooms[2])
  {
    BoardNames(rooms);
    assert rooms[1..][0] == rooms[1] && rooms[1..][1..] == rooms[2..] && rooms[2..][0] == rooms[2];
    assert FindFirst(IsEmergencyRoom, rooms[2..]) == Some(rooms[2]);
    assert FindFirst(IsEmergencyRoom, rooms[1..]) == FindFirst(IsEmergencyRoom, rooms[2..]);
  }

  /** Of the first three rooms only the third has "emergency" in its name. */
  lemma BoardNames(rooms: seq<Room>)
    requires RoomsFixed(rooms)
    ensures !IsEmergencyRoom(rooms[0]) && !IsEmergencyRoom(rooms[1]) && IsEmergencyRoom(rooms[2])
  {
    assert rooms[0].name == "Examination 1" && rooms[1].name == "Examination 2" && rooms[2].name == "Emergency";
    ExaminationNames();
    EmergencyLowerCase();
  }

  lemma ExaminationNames()
    ensures !Contains(ToLower("Examination 1"), "emergency")
    ensures !Contains(ToLower("Examination 2"), "emergency")
  {
    NoEmergencyWithoutY("Examination 1");
    NoEmergencyWithoutY("Examination 2");
  }

  lemma EmergencyLowerCase()
    ensures Contains(ToLower("Emergency"), "emergency")
  {
    assert ToLower("Emergency") == "emergency";
    assert IsPrefix("emergency", "emergency");
  }

  /** A name with no 'y' or 'Y' cannot contain "emergency" once lower-cased. */
  lemma NoEmergencyWithoutY(name: string)
    requires forall i :: 0 <= i < |name| ==> name[i] != 'y' && name[i] != 'Y'
    ensures !Contains(ToLower(name), "emergency")
  {
    NotContainsEmergency(ToLower(name));
  }

  lemma {:induction false} NotContainsEmergency(s: string)
    requires forall i :: 0 <= i < |s| ==> s[i] != 'y'
    ensures !Contains(s, "emergency")
    decreases |s|
  {
    assert !IsPrefix("emergency", s) by {
      if |s| >= 9 {
        assert s[8] != 'y';
      }
    }
    if s != [] {
      NotContainsEmergency(s[1..]);
    }
  }

  /** The dashboard's state variables, as one value. */
  datatype View = View(
    currentTreatment: Option<TicketRow>,
    waitingQueue: seq<TicketRow>,
    rooms: seq<Room>,
    selectedRoom: Option<int>,
    patientNotes: string,
    newPatientForm: FormData,
    error: Option<string>)

  const INITIAL_VIEW: View := View(None, [], INITIAL_ROOMS, None, "", BLANK_FORM, None)

  /**
   * `loadDoctorData` on a fetched list: no error, the waiting list and the
   * board recomputed, and with a room selected, the current treatment is
   * that room's patient.
   */
  function Loaded(v: View, rows: seq<TicketRow>): View {
    var rooms := RefreshRooms(v.rooms, rows);
    v.(error := None,
       waitingQueue := WaitingQueue(rows),
       rooms := rooms,
       currentTreatment := if v.selectedRoom.Some? then SelectedOccupant(rooms, v.selectedRoom.value) else v.currentTreatment)
  }

  /** Loading replaces any error message, so an error set just before it does not matter. */
  lemma LoadedClearsError(v: View, e: Option<string>, rows: seq<TicketRow>)
    ensures Loaded(v.(error := e), rows) == Loaded(v, rows)
    ensures Loaded(v, rows).error.None?
  {
  }

  /** A handler's request failed: only the error message changes. */
  function Failed(v: View, message: string): View {
    v.(error := Some(message))
  }

  /**
   * A successful `startTreatment`: reload, select the room, and show the
   * started ticket as the current treatment when the new list has it.
   */
  function Started(v: View, rows: seq<TicketRow>, ticketId: string, roomId: int): View {
    ShowStarted(Loaded(v, rows), rows, ticketId, roomId)
  }

  /** Select the room and show the ticket with the id, when the list has it. */
  function ShowStarted(v: View, rows: seq<TicketRow>, ticketId: string, roomId: int): View {
    var started := FindTicket(rows, ticketId);
    v.(selectedRoom := Some(roomId), currentTreatment := if started.Some? then started else v.currentTreatment)
  }

  /** `startTreatment` as a whole: it fails when the store has no ticket with the id. */
  function StartView(v: View, before: seq<Ticket>, rows: seq<TicketRow>, ticketId: string, roomId: int): View {
    if TicketIndex(before, ticketId).None? then Failed(v, START_ERROR) else Started(v, rows, ticketId, roomId)
  }

  /** A successful `completeTreatment`: reload, then no current treatment, no selected room, no notes. */
  function Completed(v: View, rows: seq<TicketRow>): View {
    Loaded(v, rows).(currentTreatment := None, selectedRoom := None, patientNotes := "")
  }

  /** A listed ticket row with the id of the store's `k`-th ticket is that ticket's row. */
  lemma {:induction false} ListedRowWithId(patients: seq<Patient>, tickets: seq<Ticket>, k: nat, r: TicketRow)
    requires WellFormed(patients, tickets) && k < |tickets|
    requires r in ListTickets(patients, tickets) && r.ticket.id == tickets[k].id
    ensures r == Join(patients, tickets)[k]
  {
    var rows := Join(patients, tickets);
    assert r in multiset(rows);
    var m :| 0 <= m < |rows| && rows[m] == r;
    TicketIdsUnique(tickets, m, k);
  }

  /** Looking a stored ticket up by id in the `get-tickets` list finds that ticket with its patient. */
  lemma {:induction false} ListingFindsTicket(patients: seq<Patient>, tickets: seq<Ticket>, k: nat)
    requires WellFormed(patients, tickets) && k < |tickets|
    ensures FindTicket(ListTickets(patients, tickets), tickets[k].id) == Some(Join(patients, tickets)[k])
  {
    var rows := ListTickets(patients, tickets);
    assert Join(patients, tickets)[k] in multiset(rows);
    var found := FindTicket(rows, tickets[k].id);
    ListedRowWithId(patients, tickets, k, found.value);
  }

  /**
   * Starting the `k`-th ticket in a room with a non-zero id: the store is
   * still well formed, the ticket becomes the current treatment, in that
   * room and IN_TREATMENT; the room is selected and shown as active; and
   * the ticket has left the waiting list.
   */
  lemma {:induction false} StartShowsTicket(patients: seq<Patient>, tickets: seq<Ticket>, k: nat, v: View, roomId: int, now: int)
    requires WellFormed(patients, tickets) && k < |tickets| && roomId != 0
    ensures var after := tickets[k := ApplyStatusUpdate(tickets[k], IN_TREATMENT, Some(roomId), now)];
            var w := Started(v, ListTickets(patients, after), tickets[k].id, roomId);
            && WellFormed(patients, after)
            && w.currentTreatment == Some(Join(patients, after)[k])
            && InRoom(roomId, Join(patients, after)[k])
            && w.selectedRoom == Some(roomId)
            && (forall i :: 0 <= i < |w.rooms| && w.rooms[i].id == roomId ==> w.rooms[i].status == ACTIVE)
            && Join(patients, after)[k] !in w.waitingQueue
  {
    StatusNamesUpper();
    var updated := ApplyStatusUpdate(tickets[k], IN_TREATMENT, Some(roomId), now);
    var after := tickets[k := updated];
    WellFormedReplaceTicket(patients, tickets, k, updated);
    var rows := ListTickets(patients, after);
    ListingFindsTicket(patients, after, k);
    var row := Join(patients, after)[k];
    assert row in multiset(rows);
    assert InRoom(roomId, row);
    StartedRoomActive(v, rows, tickets[k].id, roomId, row);
  }

  /** A room in which a listed ticket is being treated is shown as active after the reload. */
  lemma StartedRoomActive(v: View, rows: seq<TicketRow>, ticketId: string, roomId: int, row: TicketRow)
    requires row in rows && InRoom(roomId, row)
    ensures var w := Started(v, rows, ticketId, roomId);
            forall i :: 0 <= i < |w.rooms| && w.rooms[i].id == roomId ==> w.rooms[i].status == ACTIVE
  {
    var j :| 0 <= j < |rows| && rows[j] == row;
    var w := Started(v, rows, ticketId, roomId);
    forall i | 0 <= i < |w.rooms| && w.rooms[i].id == roomId
      ensures w.rooms[i].status == ACTIVE
    {
      RefreshedRoom(v.rooms, rows, i);
      assert InRoom(v.rooms[i].id, rows[j]);
    }
  }

  /**
   * Completing the `k`-th ticket: the store is still well formed, no room
   * shows the ticket any more, it is not in the waiting list, and nothing
   * is selected.
   */
  lemma {:induction false} CompleteClearsTicket(patients: seq<Patient>, tickets: seq<Ticket>, k: nat, v: View, now: int)
    requires WellFormed(patients, tickets) && k < |tickets|
    ensures var after := tickets[k := ApplyStatusUpdate(tickets[k], COMPLETED, None, now)];
            var w := Completed(v, ListTickets(patients, after));
            && WellFormed(patients, after)
            && w.currentTreatment.None? && w.selectedRoom.None? && w.patientNotes == ""
            && (forall i :: 0 <= i < |w.rooms| ==>
                  w.rooms[i].currentPatient.None? || w.rooms[i].currentPatient.value.ticket.id != tickets[k].id)
            && (forall i :: 0 <= i < |w.waitingQueue| ==> w.waitingQueue[i].ticket.id != tickets[k].id)
  {
    StatusNamesUpper();
    var updated := ApplyStatusUpdate(tickets[k], COMPLETED, None, now);
    var after := tickets[k := updated];
    WellFormedReplaceTicket(patients, tickets, k, updated);
    var rows := ListTickets(patients, after);
    var w := Completed(v, rows);
    forall i | 0 <= i < |w.rooms| && w.rooms[i].currentPatient.Some?
      ensures w.rooms[i].currentPatient.value.ticket.id != tickets[k].id
    {
      var o := w.rooms[i].currentPatient.value;
      assert o == Occupant(rows, v.rooms[i].id).value;
      if o.ticket.id == tickets[k].id {
        ListedRowWithId(patients, after, k, o);
      }
    }
    forall i | 0 <= i < |w.waitingQueue|
      ensures w.waitingQueue[i].ticket.id != tickets[k].id
    {
      var o := w.waitingQueue[i];
      if o.ticket.id == tickets[k].id {
        ListedRowWithId(patients, after, k, o);
      }
    }
  }

  /** The doctor's dashboard state. */
  class Dashboard {
    var currentTreatment: Option<TicketRow>
    var waitingQueue: seq<TicketRow>
    var rooms: seq<Room>
    var selectedRoom: Option<int>
    var patientNotes: string
    var newPatientForm: FormData
    var error: Option<string>

    ghost predicate Valid()
      reads this
    {
      RoomsFixed(rooms) && newPatientForm.patientId.None?
    }

    function Snapshot(): View
      reads this
    {
      View(currentTreatment, waitingQueue, rooms, selectedRoom, patientNotes, newPatientForm, error)
    }

    constructor ()
      ensures Valid() && Snapshot() == INITIAL_VIEW
    {
      currentTreatment := None;
      waitingQueue := [];
      rooms := INITIAL_ROOMS;
      selectedRoom := None;
      patientNotes := "";
      newPatientForm := BLANK_FORM;
      error := None;
    }

    /** `loadDoctorData`: fetch the tickets and recompute the waiting list and the board. */
    method LoadDoctorData(reg: Store)
      requires Valid()
      modifies this
      ensures Valid()
      ensures Snapshot() == Loaded(old(Snapshot()), reg.Listing())
    {
      var rows := reg.Listing();
      LoadRows(rows);
    }

    method LoadRows(rows: seq<TicketRow>)
      requires Valid()
      modifies this
      ensures Valid()
      ensures Snapshot() == Loaded(old(Snapshot()), rows)
    {
      error := None;
      waitingQueue := WaitingQueue(rows);
      var updated := RefreshRooms(rooms, rows);
      rooms := updated;
      if selectedRoom.Some? {
        currentTreatment := SelectedOccupant(updated, selectedRoom.value);
      }
    }

    /**
     * `startTreatment`: ask the store to set the ticket IN_TREATMENT in the
     * room, then reload, select the room and show the started ticket. An
     * unknown ticket leaves an error message and nothing else.
     */
    method StartTreatment(reg: Store, ticketId: string, roomId: int, now: int)
      requires Valid() && reg.Valid()
      modifies this, reg
      ensures Valid() && reg.Valid()
      ensures reg.patients == old(reg.patients)
      ensures reg.tickets == StatusUpdated(old(reg.tickets), ticketId, IN_TREATMENT, Some(roomId), now)
      ensures Snapshot() == StartView(old(Snapshot()), old(reg.tickets), reg.Listing(), ticketId, roomId)
    {
      error := None;
      var result := reg.UpdateTicketStatus(ticketId, IN_TREATMENT, Some(roomId), now);
      if result.Failure? {
        error := Some(START_ERROR);
        return;
      }
      var rows := reg.Listing();
      assert Snapshot() == old(Snapshot()).(error := None);
      LoadedClearsError(old(Snapshot()), None, rows);
      ShowStartedRows(rows, ticketId, roomId);
    }

    /** The dashboard side of a successful `startTreatment`, on the reloaded list. */
    method ShowStartedRows(rows: seq<TicketRow>, ticketId: string, roomId: int)
      requires Valid()
      modifies this
      ensures Valid()
      ensures Snapshot() == Started(old(Snapshot()), rows, ticketId, roomId)
    {
      LoadRows(rows);
      selectedRoom := Some(roomId);
      var started := FindTicket(rows, ticketId);
      if started.Some? {
        currentTreatment := started;
      }
    }

    /**
     * `assignPatientToRoom`: no room (0) or no ticket id ("") does nothing;
     * otherwise it is `startTreatment`.
     */
    method AssignPatientToRoom(reg: Store, ticketId: string, roomId: int, now: int)
      requires Valid() && reg.Valid()
      modifies this, reg
      ensures Valid() && reg.Valid()
      ensures roomId == 0 || ticketId == "" ==>
                Snapshot() == old(Snapshot()) && reg.patients == old(reg.patients) && reg.tickets == old(reg.tickets)
      ensures roomId != 0 && ticketId != "" ==>
                && reg.patients == old(reg.patients)
                && reg.tickets == StatusUpdated(old(reg.tickets), ticketId, IN_TREATMENT, Some(roomId), now)
                && Snapshot() == StartView(old(Snapshot()), old(reg.tickets), reg.Listing(), ticketId, roomId)
    {
      if roomId == 0 {
        return;
      }
      if ticketId == "" {
        return;
      }
      StartTreatment(reg, ticketId, roomId, now);
    }

    /**
     * `completeTreatment`: ask the store to set the ticket COMPLETED (which
     * clears its room), reload, and clear the current treatment, the
     * selected room and the notes. An unknown ticket leaves an error message
     * and nothing else.
     */
    method CompleteTreatment(reg: Store, ticketId: string, now: int)
      requires Valid() && reg.Valid()
      modifies this, reg
      ensures Valid() && reg.Valid()
      ensures reg.patients == old(reg.patients)
      ensures reg.tickets == StatusUpdated(old(reg.tickets), ticketId, COMPLETED, None, now)
      ensures Snapshot() == if TicketIndex(old(reg.tickets), ticketId).None? then Failed(old(Snapshot()), COMPLETE_ERROR)
                            else Completed(old(Snapshot()), reg.Listing())
    {
      error := None;
      var result := reg.UpdateTicketStatus(ticketId, COMPLETED, None, now);
      if result.Failure? {
        error := Some(COMPLETE_ERROR);
        return;
      }
      var rows := reg.Listing();
      assert Snapshot() == old(Snapshot()).(error := None);
      LoadedClearsError(old(Snapshot()), None, rows);
      ShowCompleted(rows);
    }

    /** The dashboard side of a successful `completeTreatment`, on the reloaded list. */
    method ShowCompleted(rows: seq<TicketRow>)
      requires Valid()
      modifies this
      ensures Valid()
      ensures Snapshot() == Completed(old(Snapshot()), rows)
    {
      LoadRows(rows);
      currentTreatment := None;
      selectedRoom := None;
      patientNotes := "";
    }

    /**
     * `callNextPatient`: with an empty waiting list nothing happens;
     * otherwise the head of the list is started in the room.
     */
    method CallNextPatient(reg: Store, roomId: int, now: int)
      requires Valid() && reg.Valid()
      modifies this, reg
      ensures Valid() && reg.Valid()
      ensures old(waitingQueue) == [] ==>
                Snapshot() == old(Snapshot()) && reg.patients == old(reg.patients) && reg.tickets == old(reg.tickets)
      ensures old(waitingQueue) != [] ==>
                var next := old(waitingQueue)[0].ticket.id;
                && reg.patients == old(reg.patients)
                && reg.tickets == StatusUpdated(old(reg.tickets), next, IN_TREATMENT, Some(roomId), now)
                && Snapshot() == StartView(old(Snapshot()), old(reg.tickets), reg.Listing(), next, roomId)
    {
      if |waitingQueue| == 0 {
        return;
      }
      var next := waitingQueue[0];
      StartTreatment(reg, next.ticket.id, roomId, now);
    }

    /**
     * `handleCreateNewPatient`: a blank name does nothing. Otherwise a
     * ticket is created for a new patient from the form, the form is reset
     * and the dashboard reloads. (A request without a patient id cannot
     * fail, so the error branch of the handler is never taken.)
     */
    method HandleCreateNewPatient(reg: Store, now: int)
      requires Valid() && reg.Valid()
      modifies this, reg
      ensures Valid() && reg.Valid()
      ensures IsBlank(old(newPatientForm.name)) ==>
                Snapshot() == old(Snapshot()) && reg.patients == old(reg.patients) && reg.tickets == old(reg.tickets)
      ensures !IsBlank(old(newPatientForm.name)) ==>
                var form := old(newPatientForm);
                var p := Patient(PatientIdFor(|old(reg.patients)|), form.name, now);
                var req := CreateRequest(None, form.name, Some(form.service), Some(form.priority), Some(form.notes));
                && reg.patients == old(reg.patients) + [p]
                && reg.tickets == old(reg.tickets) + [NewTicket(|old(reg.tickets)|, req, p.id, now)]
                && Snapshot() == Loaded(old(Snapshot()).(newPatientForm := BLANK_FORM), reg.Listing())
    {
      if !IsBlank(newPatientForm.name) {
        RegisterAndReload(reg, now);
      }
    }

    /** The non-blank path of `handleCreateNewPatient`. */
    method RegisterAndReload(reg: Store, now: int)
      requires Valid() && reg.Valid()
      modifies this, reg
      ensures Valid() && reg.Valid()
      ensures var form := old(newPatientForm);
              var p := Patient(PatientIdFor(|old(reg.patients)|), form.name, now);
              var req := CreateRequest(None, form.name, Some(form.service), Some(form.priority), Some(form.notes));
              && reg.patients == old(reg.patients) + [p]
              && reg.tickets == old(reg.tickets) + [NewTicket(|old(reg.tickets)|, req, p.id, now)]
              && Snapshot() == Loaded(old(Snapshot()).(newPatientForm := BLANK_FORM), reg.Listing())
    {
      error := None;
      RegisterWalkIn(reg, newPatientForm, now);
      var rows := reg.Listing();
      assert Snapshot() == old(Snapshot()).(error := None);
      LoadedClearsError(old(Snapshot()).(newPatientForm := BLANK_FORM), None, rows);
      ShowRegistered(rows);
    }

    /** The dashboard side of a registered walk-in: the form is reset and the list reloaded. */
    method ShowRegistered(rows: seq<TicketRow>)
      requires Valid()
      modifies this
      ensures Valid()
      ensures Snapshot() == Loaded(old(Snapshot()).(newPatientForm := BLANK_FORM), rows)
    {
      newPatientForm := BLANK_FORM;
      LoadRows(rows);
    }

    /** The store side of `handleCreateNewPatient`: a ticket for a new patient made from the form. */
    static method RegisterWalkIn(reg: Store, form: FormData, now: int)
      requires reg.Valid()
      modifies reg
      ensures reg.Valid()
      ensures var p := Patient(PatientIdFor(|old(reg.patients)|), form.name, now);
              var req := CreateRequest(None, form.name, Some(form.service), Some(form.priority), Some(form.notes));
              && reg.patients == old(reg.patients) + [p]
              && reg.tickets == old(reg.tickets) + [NewTicket(|old(reg.tickets)|, req, p.id, now)]
    {
      var req := CreateRequest(None, form.name, Some(form.service), Some(form.priority), Some(form.notes));
      assert !Given(req.patientId);
      var created := reg.CreateTicket(req, now);
    }

    /** Typing in the walk-in form changes that one field. */
    method EditNewPatientForm(field: Field, value: string)
      requires Valid()
      modifies this
      ensures Valid()
      ensures Snapshot() == old(Snapshot()).(newPatientForm := WithField(old(newPatientForm), field, value))
    {
      newPatientForm := WithField(newPatientForm, field, value);
    }

    /** Typing in the notes box. */
    method EditNotes(text: string)
      requires Valid()
      modifies this
      ensures Valid()
      ensures Snapshot() == old(Snapshot()).(patientNotes := text)
    {
      patientNotes := text;
    }

    /** `handleAddNotes`: blank notes are refused; otherwise they are cleared (they are not stored anywhere). */
    method HandleAddNotes()
      requires Valid()
      modifies this
      ensures Valid()
      ensures Snapshot() == if IsBlank(old(patientNotes)) then old(Snapshot()) else old(Snapshot()).(patientNotes := "")
    {
      if IsBlank(patientNotes) {
        return;
      }
      patientNotes := "";
    }

    /**
     * `handleEmergencyProtocol`: select the first room whose name contains
     * "emergency", but only when it shows no patient.
     */
    method HandleEmergencyProtocol()
      requires Valid()
      modifies this
      ensures Valid()
      ensures var room := EmergencyRoom(old(rooms));
              Snapshot() == if room.Some? && room.value.currentPatient.None?
                            then old(Snapshot()).(selectedRoom := Some(room.value.id))
                            else old(Snapshot())
    {
      var room := EmergencyRoom(rooms);
      if room.Some? && room.value.currentPatient.None? {
        selectedRoom := Some(room.value.id);
      }
    }

    /** Clicking a room card: select it and show its patient (or none) as the current treatment. */
    method SelectRoom(i: nat)
      requires Valid() && i < |rooms|
      modifies this
      ensures Valid()
      ensures Snapshot() == old(Snapshot()).(selectedRoom := Some(old(rooms)[i].id), currentTreatment := old(rooms)[i].currentPatient)
    {
      selectedRoom := Some(rooms[i].id);
      currentTreatment := rooms[i].currentPatient;
    }

    /** The "clear selection" button. */
    method ClearRoomSelection()
      requires Valid()
      modifies this
      ensures Valid()
      ensures Snapshot() == old(Snapshot()).(selectedRoom := None)
    {
      selectedRoom := None;
    }
  }

  /**
   * A walk-in registered from the dashboard appears in the waiting list
   * after the reload, with its new patient joined in.
   */
  lemma {:induction false} WalkInJoinsQueue(patients: seq<Patient>, tickets: seq<Ticket>, v: View, req: CreateRequest, now: int)
    requires WellFormed(patients, tickets) && req.patientId.None?
    ensures var p := Patient(PatientIdFor(|patients|), req.name, now);
            var t := NewTicket(|tickets|, req, p.id, now);
            TicketRow(t, Some(p)) in Loaded(v, ListTickets(patients + [p], tickets + [t])).waitingQueue
  {
    var p := Patient(PatientIdFor(|patients|), req.name, now);
    var t := NewTicket(|tickets|, req, p.id, now);
    WellFormedAddPatient(patients, tickets, p);
    WellFormedAddTicket(patients + [p], tickets, t);
    NewPatientIsFound(patients, req.name, now);
    CreatedTicketIsListed(patients + [p], tickets, t, p);
    var rows := ListTickets(patients + [p], tickets + [t]);
    var j :| 0 <= j < |rows| && rows[j] == TicketRow(t, Some(p));
    assert IsWaiting(rows[j]);
  }
}
