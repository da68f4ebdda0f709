/**
 * The waiting-room kiosk: what it derives from the `get-tickets` list (the
 * patient now being served, the next five waiting tickets and the number
 * waiting), its wait estimate, the priority badges, and the spoken
 * announcement with its guard against overlapping announcements.
 */
module KioskDisplay {
  import opened Basics
  import opened Text
  import opened Domain
  import opened Registry
  import DoctorView

  /** How many waiting tickets the kiosk lists. */
  const NEXT_SHOWN: nat := 5

  /** What the kiosk shows: the ticket now served, the next tickets, and how many are waiting. */
  datatype Board = Board(current: Option<TicketRow>, next: seq<TicketRow>, waitingCount: nat)

  /**
   * `loadKioskData` on a fetched list: the first IN_TREATMENT ticket (or
   * none), the first five WAITING tickets and the number of WAITING tickets.
   */
  function KioskBoard(rows: seq<TicketRow>): (b: Board)
    ensures |b.next| == if b.waitingCount < NEXT_SHOWN then b.waitingCount else NEXT_SHOWN
    ensures forall i :: 0 <= i < |b.next| ==> IsWaiting(b.next[i]) && b.next[i] in rows
    ensures b.current.Some? ==> IsInTreatment(b.current.value) && b.current.value in rows
    ensures b.waitingCount == |Filter(IsWaiting, rows)| && b.next == Filter(IsWaiting, rows)[..|b.next|]
  {
    var waiting := Filter(IsWaiting, rows);
    Board(FindFirst(IsInTreatment, rows), waiting[..if |waiting| < NEXT_SHOWN then |waiting| else NEXT_SHOWN], |waiting|)
  }

  /**
   * "Now serving" is the first IN_TREATMENT ticket in fetched order, and
   * there is none exactly when no fetched ticket is IN_TREATMENT.
   */
  lemma {:induction false} NowServingIsFirst(rows: seq<TicketRow>)
    ensures KioskBoard(rows).current.None? <==> forall i :: 0 <= i < |rows| ==> !IsInTreatment(rows[i])
    ensures KioskBoard(rows).current.Some? ==>
              var k := FirstIndex(IsInTreatment, rows).value;
              && KioskBoard(rows).current.value == rows[k]
              && forall j :: 0 <= j < k ==> !IsInTreatment(rows[j])
  {
    FindFirstAtFirstIndex(IsInTreatment, rows);
  }

  /**
   * On the store's listing, "now serving" is the in-treatment ticket that
   * was created last (not the one started last), and it is one of the
   * tickets `get-active-treatments` reports.
   */
  lemma {:induction false} NowServingIsNewestActive(patients: seq<Patient>, tickets: seq<Ticket>)
    ensures var rows := ListTickets(patients, tickets);
            var current := KioskBoard(rows).current;
            && (current.Some? ==> current.value in ActiveTreatments(patients, tickets))
            && (current.Some? ==> forall i :: 0 <= i < |rows| && IsInTreatment(rows[i]) ==>
                                    rows[i].ticket.createdAt <= current.value.ticket.createdAt)
  {
    var rows := ListTickets(patients, tickets);
    var current := KioskBoard(rows).current;
    if current.Some? {
      NowServingIsFirst(rows);
      var k := FirstIndex(IsInTreatment, rows).value;
      forall i | 0 <= i < |rows| && IsInTreatment(rows[i])
        ensures rows[i].ticket.createdAt <= current.value.ticket.createdAt
      {
        SortedDescPairwise(rows, ByCreatedAt, k, i);
      }
      ListedIsActive(patients, tickets, current.value);
    }
  }

  /** A listed IN_TREATMENT ticket is among the active treatments. */
  lemma {:induction false} ListedIsActive(patients: seq<Patient>, tickets: seq<Ticket>, r: TicketRow)
    requires r in ListTickets(patients, tickets) && IsInTreatment(r)
    ensures r in ActiveTreatments(patients, tickets)
  {
    var joined := Join(patients, tickets);
    assert r in multiset(joined);
    var m :| 0 <= m < |joined| && joined[m] == r;
    assert tickets[m].status == IN_TREATMENT;
  }

  /**
   * The list of next tickets is the head of the doctor's waiting list built
   * from the same fetch, and the count is that list's length, so the ticket
   * a doctor calls next is the first one the kiosk shows.
   */
  lemma {:induction false} NextUpMatchesDoctor(rows: seq<TicketRow>, v: DoctorView.View)
    ensures var b := KioskBoard(rows);
            var queue := DoctorView.Loaded(v, rows).waitingQueue;
            && b.waitingCount == |queue|
            && b.next == queue[..|b.next|]
            && (queue != [] ==> b.next != [] && b.next[0] == queue[0])
  {
  }

  /**
   * `calculateWaitTime`: fifteen minutes for each place up to and including
   * this one, but never under five minutes.
   */
  function WaitTime(index: int): (minutes: int)
    ensures minutes >= 5 && minutes >= (index + 1) * 15
    ensures minutes == 5 || minutes == (index + 1) * 15
  {
    if (index + 1) * 15 >= 5 then (index + 1) * 15 else 5
  }

  /**
   * For a real list position the five-minute floor never applies: the
   * estimate is the doctor screen's, at least fifteen minutes, and strictly
   * grows down the list.
   */
  lemma WaitTimeOnList(i: int, j: int)
    requires 0 <= i < j
    ensures WaitTime(i) == DoctorView.WaitTime(i) && WaitTime(i) >= 15
    ensures WaitTime(i) < WaitTime(j)
  {
  }

  /** `getPriorityColor`: the badge colours, split the same three ways as the label. */
  function PriorityColor(priority: int): string {
    if priority == 2 then "bg-red-100 text-red-800 border-red-200"
    else if priority == 1 then "bg-orange-100 text-orange-800 border-orange-200"
    else "bg-emerald-100 text-emerald-800 border-emerald-200"
  }

  /** Two priorities get the same badge colour exactly when they get the same label. */
  lemma ColorFollowsText(a: int, b: int)
    ensures PriorityColor(a) == PriorityColor(b) <==> PriorityText(a) == PriorityText(b)
  {
    var red: string := "bg-red-100 text-red-800 border-red-200";
    var orange: string := "bg-orange-100 text-orange-800 border-orange-200";
    var green: string := "bg-emerald-100 text-emerald-800 border-emerald-200";
    assert PriorityColor(2) == red && PriorityColor(1) == orange && PriorityColor(0) == green;
    assert red[|red| - 6] == 'e';
    assert orange[|orange| - 6] == 'g';
    assert green[|green| - 6] == 'l';
  }

  /** The sentence `announcePatient` speaks. */
  function Announcement(name: string, number: string, room: string): string {
    "Patient " + name + " with ticket " + number + ", please proceed to " + room + "."
  }

  /**
   * The sentence keeps its parts where a listener expects them: it opens
   * with "Patient " and the name, and it ends with the room and a full stop.
   */
  lemma AnnouncementParts(name: string, number: string, room: string)
    ensures var msg := Announcement(name, number, room);
            && |msg| == 42 + |name| + |number| + |room|
            && msg[..8] == "Patient "
            && msg[8..8 + |name|] == name
            && msg[|msg| - 1 - |room|..|msg| - 1] == room
            && msg[|msg| - 1] == '.'
  {
    var msg := Announcement(name, number, room);
    var head := "Patient " + name + " with ticket " + number + ", please proceed to ";
    assert msg == head + room + ".";
    assert msg[..8] == ("Patient " + name)[..8];
    assert msg[8..8 + |name|] == ("Patient " + name)[8..];
    assert msg[|msg| - 1 - |room|..|msg| - 1] == (room + ".")[..|room|];
  }

  /** Where the announcement sends the patient: "Room <id>" for a set, non-zero room, else "treatment". */
  function RoomLabel(roomId: Option<int>): string {
    if roomId.Some? && roomId.value != 0 then "Room " + IntToString(roomId.value) else "treatment"
  }

  /** `patient?.name` in a template: a ticket without its patient reads "undefined". */
  function NameText(patient: Option<Patient>): string {
    if patient.Some? then patient.value.name else "undefined"
  }

  /** The announcement the "now serving" card's button makes for a ticket. */
  function CurrentAnnouncement(row: TicketRow): string {
    Announcement(NameText(row.patient), row.ticket.number, RoomLabel(row.ticket.roomId))
  }

  /**
   * A ticket started in room `room` (non-zero) is announced with that room;
   * after completion it has no room and the announcement says "treatment".
   */
  lemma {:induction false} AnnouncedRoom(t: Ticket, room: int, now: int)
    requires room != 0
    ensures RoomLabel(ApplyStatusUpdate(t, IN_TREATMENT, Some(room), now).roomId) == "Room " + IntToString(room)
    ensures RoomLabel(ApplyStatusUpdate(t, COMPLETED, None, now).roomId) == "treatment"
  {
    StatusNamesUpper();
  }

  /** The kiosk screen's state. */
  class Kiosk {
    var currentTicket: Option<TicketRow>
    var nextTickets: seq<TicketRow>
    var waitingCount: nat
    var isAnnouncing: bool

    function Shown(): Board
      reads this
    {
      Board(currentTicket, nextTickets, waitingCount)
    }

    constructor ()
      ensures Shown() == Board(None, [], 0) && !isAnnouncing
    {
      currentTicket := None;
      nextTickets := [];
      waitingCount := 0;
      isAnnouncing := false;
    }

    /** `loadKioskData`: fetch the tickets and recompute what the board shows. */
    method LoadKioskData(reg: Store)
      modifies this
      ensures Shown() == KioskBoard(reg.Listing())
      ensures isAnnouncing == old(isAnnouncing)
    {
      var rows := reg.Listing();
      ShowBoard(rows);
    }

    /** Recompute the board from a fetched list. */
    method ShowBoard(rows: seq<TicketRow>)
      modifies this
      ensures Shown() == KioskBoard(rows)
      ensures isAnnouncing == old(isAnnouncing)
    {
      currentTicket := FindFirst(IsInTreatment, rows);
      var waiting := Filter(IsWaiting, rows);
      nextTickets := waiting[..if |waiting| < NEXT_SHOWN then |waiting| else NEXT_SHOWN];
      waitingCount := |waiting|;
    }

    /**
     * `announcePatient`: ignored while an announcement is in progress.
     * Otherwise the sentence is produced and the kiosk stays "announcing"
     * while speech plays; without speech synthesis the sentence is shown in
     * an alert and the flag drops again at once.
     */
    method AnnouncePatient(name: string, number: string, room: string, speechAvailable: bool)
      returns (message: Option<string>)
      modifies this
      ensures old(isAnnouncing) ==> message.None? && isAnnouncing
      ensures !old(isAnnouncing) ==> message == Some(Announcement(name, number, room)) && isAnnouncing == speechAvailable
      ensures Shown() == old(Shown())
    {
      if isAnnouncing {
        return None;
      }
      isAnnouncing := true;
      message := Some(Announcement(name, number, room));
      if !speechAvailable {
        isAnnouncing := false;
      }
    }

    /** The speech's `onend` callback. */
    method SpeechEnded()
      modifies this
      ensures !isAnnouncing && Shown() == old(Shown())
    {
      isAnnouncing := false;
    }
  }
}
