/**
 * The main process's ticket registry: an in-memory store of patients and
 * tickets standing in for the database, the two handlers that change it
 * (`create-ticket`, `update-ticket-status`) and the read handlers
 * (`get-tickets`, `search-patients`, `get-patient`, `get-active-treatments`,
 * `get-todays-completed`).
 */
module Registry {
  import opened Basics
  import opened Text
  import opened Domain

  /** The body of a `create-ticket` request. Every field but the name may be missing. */
  datatype CreateRequest = CreateRequest(
    patientId: Option<string>,
    name: string,
    service: Option<string>,
    priority: Option<string>,
    notes: Option<string>)

  datatype Error = PatientNotFound | TicketNotFound

  /** The request a screen sends when it submits the registration form. */
  function RequestOf(f: FormData): CreateRequest {
    CreateRequest(f.patientId, f.name, Some(f.service), Some(f.priority), Some(f.notes))
  }

  /** JavaScript truthiness of an optional text field: present and non-empty. */
  predicate Given(s: Option<string>) {
    s.Some? && s.value != ""
  }

  /** The id the store gives its `k`-th patient / ticket (the database's own id scheme is not modelled). */
  function PatientIdFor(k: nat): string {
    "P" + NatToString(k)
  }

  function TicketIdFor(k: nat): string {
    "T" + NatToString(k)
  }

  lemma {:induction false} IdForInjective(a: nat, b: nat)
    ensures PatientIdFor(a) == PatientIdFor(b) ==> a == b
    ensures TicketIdFor(a) == TicketIdFor(b) ==> a == b
  {
    if PatientIdFor(a) == PatientIdFor(b) {
      assert PatientIdFor(a)[1..] == PatientIdFor(b)[1..];
      NatToStringInjective(a, b);
    }
    if TicketIdFor(a) == TicketIdFor(b) {
      assert TicketIdFor(a)[1..] == TicketIdFor(b)[1..];
      NatToStringInjective(a, b);
    }
  }

  /** `get-patient`: the patient with this id, or `null`. */
  function GetPatient(patients: seq<Patient>, id: string): (r: Option<Patient>)
    ensures r.Some? ==> r.value in patients && r.value.id == id
    ensures r.None? <==> forall i :: 0 <= i < |patients| ==> patients[i].id != id
  {
    if patients == [] then None
    else if patients[0].id == id then Some(patients[0])
    else GetPatient(patients[1..], id)
  }

  /**
   * Patient ids follow the registration order. (Each store invariant is a
   * quantifier over a per-position predicate, so it is only unfolded where
   * a proof asks for a position.)
   */
  ghost predicate PatientsIndexed(patients: seq<Patient>) {
    forall i :: PatientIndexedAt(patients, i)
  }

  ghost predicate PatientIndexedAt(patients: seq<Patient>, i: int) {
    0 <= i < |patients| ==> patients[i].id == PatientIdFor(i)
  }

  /** The number of the ticket created when `k` tickets exist. */
  function NumberFor(k: nat): string {
    TicketNumber(k + 1)
  }

  /**
   * Ticket ids follow the creation order, and the `k`-th ticket (from 0) is
   * numbered `k + 1`: each ticket got its id and number from the count of
   * tickets before it.
   */
  ghost predicate TicketsIndexed(tickets: seq<Ticket>) {
    forall k :: TicketIndexedAt(tickets, k)
  }

  ghost predicate TicketIndexedAt(tickets: seq<Ticket>, k: int) {
    0 <= k < |tickets| ==> tickets[k].id == TicketIdFor(k) && tickets[k].number == NumberFor(k)
  }

  /** The `k`-th ticket of a well-numbered store has the `k`-th id and number. */
  lemma {:induction false} TicketsIndexedAt(tickets: seq<Ticket>, k: nat)
    requires TicketsIndexed(tickets) && k < |tickets|
    ensures tickets[k].id == TicketIdFor(k) && tickets[k].number == TicketNumber(k + 1)
  {
    assert TicketIndexedAt(tickets, k);
  }

  /** Every ticket's patient exists. */
  ghost predicate PatientsKnown(patients: seq<Patient>, tickets: seq<Ticket>) {
    forall i :: PatientKnownAt(patients, tickets, i)
  }

  ghost predicate PatientKnownAt(patients: seq<Patient>, tickets: seq<Ticket>, i: int) {
    0 <= i < |tickets| ==> GetPatient(patients, tickets[i].patientId).Some?
  }

  /** What the store holds in every reachable state. */
  ghost predicate WellFormed(patients: seq<Patient>, tickets: seq<Ticket>) {
    PatientsIndexed(patients) && TicketsIndexed(tickets) && PatientsKnown(patients, tickets)
  }

  /** A patient found in a list is still found after another patient is appended. */
  lemma {:induction false} FoundAfterAppend(patients: seq<Patient>, p: Patient, id: string)
    requires GetPatient(patients, id).Some?
    ensures GetPatient(patients + [p], id).Some?
  {
    var q := GetPatient(patients, id).value;
    var k :| 0 <= k < |patients| && patients[k] == q;
    assert (patients + [p])[k].id == id;
  }

  /** Registering a patient under the next id keeps the store well formed and makes the patient known. */
  lemma {:induction false} WellFormedAddPatient(patients: seq<Patient>, tickets: seq<Ticket>, p: Patient)
    requires WellFormed(patients, tickets) && p.id == PatientIdFor(|patients|)
    ensures WellFormed(patients + [p], tickets)
    ensures GetPatient(patients + [p], p.id).Some?
  {
    PatientsIndexedAppend(patients, p);
    PatientsKnownAddPatient(patients, tickets, p);
    assert (patients + [p])[|patients|].id == p.id;
  }

  lemma {:induction false} PatientsIndexedAppend(patients: seq<Patient>, p: Patient)
    requires PatientsIndexed(patients) && p.id == PatientIdFor(|patients|)
    ensures PatientsIndexed(patients + [p])
  {
    forall i
      ensures PatientIndexedAt(patients + [p], i)
    {
      assert PatientIndexedAt(patients, i);
    }
  }

  lemma {:induction false} PatientsKnownAddPatient(patients: seq<Patient>, tickets: seq<Ticket>, p: Patient)
    requires PatientsKnown(patients, tickets)
    ensures PatientsKnown(patients + [p], tickets)
  {
    forall i
      ensures PatientKnownAt(patients + [p], tickets, i)
    {
      if 0 <= i < |tickets| {
        assert PatientKnownAt(patients, tickets, i);
        FoundAfterAppend(patients, p, tickets[i].patientId);
      }
    }
  }

  /** Storing the next ticket, numbered after the count, for a known patient keeps the store well formed. */
  lemma {:induction false} WellFormedAddTicket(patients: seq<Patient>, tickets: seq<Ticket>, t: Ticket)
    requires WellFormed(patients, tickets)
    requires t.id == TicketIdFor(|tickets|) && t.number == TicketNumber(|tickets| + 1)
    requires GetPatient(patients, t.patientId).Some?
    ensures WellFormed(patients, tickets + [t])
  {
    TicketsIndexedAppend(tickets, t);
    PatientsKnownAddTicket(patients, tickets, t);
  }

  lemma {:induction false} TicketsIndexedAppend(tickets: seq<Ticket>, t: Ticket)
    requires TicketsIndexed(tickets)
    requires t.id == TicketIdFor(|tickets|) && t.number == TicketNumber(|tickets| + 1)
    ensures TicketsIndexed(tickets + [t])
  {
    forall k
      ensures TicketIndexedAt(tickets + [t], k)
    {
      assert TicketIndexedAt(tickets, k);
    }
  }

  lemma {:induction false} PatientsKnownAddTicket(patients: seq<Patient>, tickets: seq<Ticket>, t: Ticket)
    requires PatientsKnown(patients, tickets)
    requires GetPatient(patients, t.patientId).Some?
    ensures PatientsKnown(patients, tickets + [t])
  {
    forall i
      ensures PatientKnownAt(patients, tickets + [t], i)
    {
      assert PatientKnownAt(patients, tickets, i);
    }
  }

  /** Changing a ticket in place without touching its id, number or patient keeps the store well formed. */
  lemma {:induction false} WellFormedReplaceTicket(patients: seq<Patient>, tickets: seq<Ticket>, k: nat, t: Ticket)
    requires WellFormed(patients, tickets) && k < |tickets|
    requires t.id == tickets[k].id && t.number == tickets[k].number && t.patientId == tickets[k].patientId
    ensures WellFormed(patients, tickets[k := t])
  {
    TicketsIndexedReplace(tickets, k, t);
    PatientsKnownReplace(patients, tickets, k, t);
  }

  lemma {:induction false} TicketsIndexedReplace(tickets: seq<Ticket>, k: nat, t: Ticket)
    requires TicketsIndexed(tickets) && k < |tickets|
    requires t.id == tickets[k].id && t.number == tickets[k].number
    ensures TicketsIndexed(tickets[k := t])
  {
    var after := tickets[k := t];
    forall j
      ensures TicketIndexedAt(after, j)
    {
      assert TicketIndexedAt(tickets, j);
    }
  }

  lemma {:induction false} PatientsKnownReplace(patients: seq<Patient>, tickets: seq<Ticket>, k: nat, t: Ticket)
    requires PatientsKnown(patients, tickets) && k < |tickets|
    requires t.patientId == tickets[k].patientId
    ensures PatientsKnown(patients, tickets[k := t])
  {
    var after := tickets[k := t];
    forall j
      ensures PatientKnownAt(patients, after, j)
    {
      assert PatientKnownAt(patients, tickets, j);
    }
  }

  /**
   * With no deletion, the numbers handed out so far are exactly A-001, A-002, ...:
   * their numeric parts are 1, 2, 3, ..., so they strictly increase in creation
   * order and no two tickets share a number.
   */
  lemma {:induction false} TicketNumbersIncrease(tickets: seq<Ticket>, i: nat, j: nat)
    requires TicketsIndexed(tickets)
    requires i < j < |tickets|
    ensures NumberValue(tickets[i].number) == i + 1
    ensures NumberValue(tickets[i].number) < NumberValue(tickets[j].number)
    ensures tickets[i].number != tickets[j].number
  {
    IndexedNumberValue(tickets, i);
    IndexedNumberValue(tickets, j);
  }

  /** The `k`-th ticket's number reads back as `k + 1`. */
  lemma {:induction false} IndexedNumberValue(tickets: seq<Ticket>, k: nat)
    requires TicketsIndexed(tickets) && k < |tickets|
    ensures NumberValue(tickets[k].number) == k + 1
  {
    TicketsIndexedAt(tickets, k);
    TicketNumberValue(k + 1);
  }

  /** Ticket ids are unique, so an id names at most one ticket. */
  lemma {:induction false} TicketIdsUnique(tickets: seq<Ticket>, i: nat, j: nat)
    requires TicketsIndexed(tickets)
    requires i < |tickets| && j < |tickets| && tickets[i].id == tickets[j].id
    ensures i == j
  {
    TicketsIndexedAt(tickets, i);
    TicketsIndexedAt(tickets, j);
    IdForInjective(i, j);
  }

  /**
   * The ticket a successful create stores for the `count`-th ticket: waiting,
   * numbered `count + 1`, with the service or "General Consultation" when
   * the service is empty or missing, the mapped priority, no empty notes,
   * and no room.
   */
  function NewTicket(count: nat, req: CreateRequest, patientId: string, now: int): (t: Ticket)
    ensures t.id == TicketIdFor(count) && t.number == TicketNumber(count + 1)
    ensures t.status == WAITING
    ensures Given(req.service) ==> t.serviceType == req.service.value
    ensures !Given(req.service) ==> t.serviceType == DEFAULT_SERVICE
    ensures t.serviceType != ""
    ensures t.priority == PriorityFromText(req.priority) && 0 <= t.priority <= 2
    ensures t.notes.Some? <==> Given(req.notes)
    ensures t.notes.Some? ==> t.notes == req.notes
    ensures t.patientId == patientId
    ensures t.roomId.None? && t.completedAt.None?
    ensures t.createdAt == now && t.updatedAt == now
  {
    Ticket(
      id := TicketIdFor(count),
      number := TicketNumber(count + 1),
      status := WAITING,
      serviceType := if Given(req.service) then req.service.value else DEFAULT_SERVICE,
      priority := PriorityFromText(req.priority),
      notes := if Given(req.notes) then req.notes else None,
      patientId := patientId,
      roomId := None,
      createdAt := now,
      updatedAt := now,
      completedAt := None)
  }

  /**
   * The effect of `update-ticket-status` on one ticket. The status is stored
   * upper-cased; a given non-zero room replaces the room; COMPLETED stamps
   * `completedAt` and always leaves no room, even when a room was given. The
   * previous status is not consulted, and nothing else changes.
   */
  function ApplyStatusUpdate(t: Ticket, status: string, roomId: Option<int>, now: int): (u: Ticket)
    ensures u.status == ToUpper(status) && u.updatedAt == now
    ensures ToUpper(status) == COMPLETED ==> u.roomId.None? && u.completedAt == Some(now)
    ensures ToUpper(status) != COMPLETED && roomId.Some? && roomId.value != 0 ==> u.roomId == roomId
    ensures ToUpper(status) != COMPLETED && !(roomId.Some? && roomId.value != 0) ==> u.roomId == t.roomId
    ensures ToUpper(status) != COMPLETED ==> u.completedAt == t.completedAt
    ensures u.id == t.id && u.number == t.number && u.serviceType == t.serviceType
    ensures u.priority == t.priority && u.notes == t.notes && u.patientId == t.patientId
    ensures u.createdAt == t.createdAt
  {
    var upper := ToUpper(status);
    var withRoom := if roomId.Some? && roomId.value != 0 then roomId else t.roomId;
    if upper == COMPLETED then
      t.(status := upper, updatedAt := now, roomId := None, completedAt := Some(now))
    else
      t.(status := upper, updatedAt := now, roomId := withRoom)
  }

  /**
   * The partial record `update-ticket-status` hands to the store: the fields
   * it sets, with `roomId` absent (None), cleared (Some(None)) or set.
   */
  datatype UpdateData = UpdateData(status: string, updatedAt: int, roomId: Option<Option<int>>, completedAt: Option<int>)

  /** The store's merge of a partial record into a ticket: absent fields keep their value. */
  function Merge(t: Ticket, d: UpdateData): Ticket {
    t.(status := d.status,
       updatedAt := d.updatedAt,
       roomId := if d.roomId.Some? then d.roomId.value else t.roomId,
       completedAt := if d.completedAt.Some? then d.completedAt else t.completedAt)
  }

  /** Builds the update record field by field; merged into any ticket it has the effect `ApplyStatusUpdate` describes. */
  method BuildUpdateData(status: string, roomId: Option<int>, now: int) returns (d: UpdateData)
    ensures forall t :: Merge(t, d) == ApplyStatusUpdate(t, status, roomId, now)
  {
    var upper := ToUpper(status);
    d := UpdateData(upper, now, None, None);
    if roomId.Some? && roomId.value != 0 {
      d := d.(roomId := Some(roomId));
    }
    if upper == COMPLETED {
      d := d.(completedAt := Some(now), roomId := Some(None));
    }
  }

  /** The ticket list after `update-ticket-status`: the ticket with the id updated, or no change when none has it. */
  function StatusUpdated(tickets: seq<Ticket>, id: string, status: string, roomId: Option<int>, now: int): seq<Ticket> {
    match TicketIndex(tickets, id)
    case None => tickets
    case Some(k) => tickets[k := ApplyStatusUpdate(tickets[k], status, roomId, now)]
  }

  /** Repeating the same status update at the same time changes nothing more. */
  lemma {:induction false} StatusUpdateIdempotent(t: Ticket, status: string, roomId: Option<int>, now: int)
    ensures ApplyStatusUpdate(ApplyStatusUpdate(t, status, roomId, now), status, roomId, now)
         == ApplyStatusUpdate(t, status, roomId, now)
  {
    ToUpperIdempotent(status);
  }

  /** The position of the ticket with this id, if the store has one. */
  function TicketIndex(tickets: seq<Ticket>, id: string): (r: Option<nat>)
    ensures r.None? <==> forall i :: 0 <= i < |tickets| ==> tickets[i].id != id
    ensures r.Some? ==> r.value < |tickets| && tickets[r.value].id == id
  {
    if tickets == [] then None
    else if tickets[0].id == id then Some(0)
    else match TicketIndex(tickets[1..], id) {
      case None => None
      case Some(k) => Some(k + 1)
    }
  }

  /** Each ticket together with its patient (`include: { patient: true }`). */
  function Join(patients: seq<Patient>, tickets: seq<Ticket>): (r: seq<TicketRow>)
    ensures |r| == |tickets|
    ensures forall i :: 0 <= i < |r| ==> r[i].ticket == tickets[i] && r[i].patient == GetPatient(patients, tickets[i].patientId)
  {
    seq(|tickets|, i requires 0 <= i < |tickets| => TicketRow(tickets[i], GetPatient(patients, tickets[i].patientId)))
  }

  /** `get-tickets`: every ticket with its patient, newest `createdAt` first. */
  function ListTickets(patients: seq<Patient>, tickets: seq<Ticket>): (r: seq<TicketRow>)
    ensures SortedDesc(r, ByCreatedAt)
    ensures multiset(r) == multiset(Join(patients, tickets))
    ensures |r| == |tickets|
  {
    SortDesc(Join(patients, tickets), ByCreatedAt)
  }

  /** `get-active-treatments`: exactly the IN_TREATMENT tickets, latest `updatedAt` first. */
  function ActiveTreatments(patients: seq<Patient>, tickets: seq<Ticket>): (r: seq<TicketRow>)
    ensures forall i :: 0 <= i < |r| ==> r[i].ticket.status == IN_TREATMENT && r[i] in Join(patients, tickets)
    ensures forall i :: 0 <= i < |tickets| && tickets[i].status == IN_TREATMENT ==> Join(patients, tickets)[i] in r
    ensures SortedDesc(r, ByUpdatedAt)
    ensures multiset(r) == multiset(Filter(IsInTreatment, Join(patients, tickets)))
  {
    var active := Filter(IsInTreatment, Join(patients, tickets));
    SortDescSameElements(active, ByUpdatedAt);
    SortDesc(active, ByUpdatedAt)
  }

  /** Completed at or after `midnight` (a missing `completedAt` never qualifies). */
  predicate CompletedSince(midnight: int, r: TicketRow) {
    r.ticket.status == COMPLETED && r.ticket.completedAt.Some? && r.ticket.completedAt.value >= midnight
  }

  /**
   * `get-todays-completed`: exactly the COMPLETED tickets whose `completedAt`
   * is at or after the given local midnight. The handler asks for no
   * ordering, so the database may return them in any order; the model
   * fixes store order, one possible order.
   */
  function TodaysCompleted(patients: seq<Patient>, tickets: seq<Ticket>, midnight: int): (r: seq<TicketRow>)
    ensures forall i :: 0 <= i < |r| ==> CompletedSince(midnight, r[i]) && r[i] in Join(patients, tickets)
    ensures forall i :: 0 <= i < |tickets| && CompletedSince(midnight, Join(patients, tickets)[i]) ==> Join(patients, tickets)[i] in r
    ensures forall x :: multiset(r)[x] == if CompletedSince(midnight, x) then multiset(Join(patients, tickets))[x] else 0
  {
    var p := (r: TicketRow) => CompletedSince(midnight, r);
    FilterMultiset(p, Join(patients, tickets));
    Filter(p, Join(patients, tickets))
  }

  /**
   * The store order the model fixes for `get-todays-completed`: a ticket
   * added to the store is reported after all the tickets before it, when it
   * qualifies, and the earlier report is unchanged.
   */
  lemma {:induction false} TodaysCompletedAppend(patients: seq<Patient>, tickets: seq<Ticket>, t: Ticket, midnight: int)
    ensures var row := TicketRow(t, GetPatient(patients, t.patientId));
            TodaysCompleted(patients, tickets + [t], midnight)
              == TodaysCompleted(patients, tickets, midnight) + if CompletedSince(midnight, row) then [row] else []
  {
    var row := TicketRow(t, GetPatient(patients, t.patientId));
    var p := (r: TicketRow) => CompletedSince(midnight, r);
    JoinAppend(patients, tickets, t);
    FilterSnoc(p, Join(patients, tickets), row);
  }

  /** Joining one more ticket adds its row at the end. */
  lemma JoinAppend(patients: seq<Patient>, tickets: seq<Ticket>, t: Ticket)
    ensures Join(patients, tickets + [t]) == Join(patients, tickets) + [TicketRow(t, GetPatient(patients, t.patientId))]
  {
  }

  /** The patient's name contains the query, ignoring ASCII case (`mode: 'insensitive'`). */
  predicate NameMatches(query: string, p: Patient) {
    Contains(ToLower(p.name), ToLower(query))
  }

  /** Ascending name order between neighbours. */
  predicate SortedByName(s: seq<Patient>) {
    forall i :: 0 <= i < |s| - 1 ==> LexLe(s[i].name, s[i + 1].name)
  }

  function InsertByName(x: Patient, s: seq<Patient>): (r: seq<Patient>)
    requires SortedByName(s)
    ensures SortedByName(r)
    ensures multiset(r) == multiset(s) + multiset{x}
    ensures r != [] && (r[0] == x || (s != [] && r[0] == s[0]))
  {
    if s == [] || LexLe(x.name, s[0].name) then
      SortedByNameCons(x, s);
      [x] + s
    else
      LexLeTotal(x.name, s[0].name);
      SortedByNameTail(s);
      var rest := InsertByName(x, s[1..]);
      SortedByNameCons(s[0], rest);
      assert s == [s[0]] + s[1..];
      [s[0]] + rest
  }

  lemma SortedByNameCons(x: Patient, s: seq<Patient>)
    requires SortedByName(s) && (s != [] ==> LexLe(x.name, s[0].name))
    ensures SortedByName([x] + s)
  {
    var r := [x] + s;
    forall i | 0 <= i < |r| - 1
      ensures LexLe(r[i].name, r[i + 1].name)
    {
      if i > 0 {
        assert r[i] == s[i - 1] && r[i + 1] == s[i];
      }
    }
  }

  lemma SortedByNameTail(s: seq<Patient>)
    requires SortedByName(s) && s != []
    ensures SortedByName(s[1..])
  {
    forall i | 0 <= i < |s[1..]| - 1
      ensures LexLe(s[1..][i].name, s[1..][i + 1].name)
    {
      assert s[1..][i] == s[i + 1] && s[1..][i + 1] == s[i + 2];
    }
  }

  /** `orderBy: { name: 'asc' }`: a permutation in ascending name order. */
  function SortByName(s: seq<Patient>): (r: seq<Patient>)
    ensures SortedByName(r)
    ensures multiset(r) == multiset(s) && |r| == |s|
  {
    if s == [] then []
    else
      assert s == [s[0]] + s[1..];
      InsertByName(s[0], SortByName(s[1..]))
  }

  /** Neighbour order gives the order between any two positions. */
  lemma {:induction false} SortedByNamePairwise(s: seq<Patient>, i: nat, j: nat)
    requires SortedByName(s)
    requires i <= j < |s|
    ensures LexLe(s[i].name, s[j].name)
    decreases j - i
  {
    if i == j {
      LexLeReflexive(s[i].name);
    } else {
      SortedByNamePairwise(s, i + 1, j);
      LexLeTransitive(s[i].name, s[i + 1].name, s[j].name);
    }
  }

  lemma {:induction false} LexLeReflexive(a: string)
    ensures LexLe(a, a)
    decreases |a|
  {
    if a != [] {
      LexLeReflexive(a[1..]);
    }
  }

  /** The maximum number of patients a search returns. */
  const SEARCH_LIMIT: nat := 10

  /** The patients whose name contains the query, ignoring case, in store order. */
  function Matching(patients: seq<Patient>, query: string): (r: seq<Patient>)
    ensures forall i :: 0 <= i < |r| ==> r[i] in patients && NameMatches(query, r[i])
    ensures forall i :: 0 <= i < |patients| && NameMatches(query, patients[i]) ==> patients[i] in r
  {
    Filter((p: Patient) => NameMatches(query, p), patients)
  }

  /** Sorting by name neither drops nor invents patients. */
  lemma {:induction false} SortByNameSameElements(s: seq<Patient>)
    ensures forall i :: 0 <= i < |SortByName(s)| ==> SortByName(s)[i] in s
    ensures forall i :: 0 <= i < |s| ==> s[i] in SortByName(s)
  {
    SameElements(SortByName(s), s);
  }

  /**
   * `search-patients`: nothing for a blank query; otherwise at most ten of
   * the patients whose name contains the query case-insensitively, in
   * ascending name order — all of them when there are at most ten.
   */
  function SearchPatients(patients: seq<Patient>, query: string): (r: seq<Patient>)
    ensures IsBlank(query) ==> r == []
    ensures |r| <= SEARCH_LIMIT
    ensures forall i :: 0 <= i < |r| ==> r[i] in patients && NameMatches(query, r[i])
    ensures SortedByName(r)
    ensures !IsBlank(query) ==>
              |r| == if |Matching(patients, query)| <= SEARCH_LIMIT then |Matching(patients, query)| else SEARCH_LIMIT
    ensures !IsBlank(query) && |Matching(patients, query)| <= SEARCH_LIMIT ==>
              forall i :: 0 <= i < |patients| && NameMatches(query, patients[i]) ==> patients[i] in r
  {
    if IsBlank(query) then []
    else
      var matches := Matching(patients, query);
      var sorted := SortByName(matches);
      SortByNameSameElements(matches);
      if |sorted| <= SEARCH_LIMIT then sorted else sorted[..SEARCH_LIMIT]
  }

  /** The patient and ticket store. */
  class Store {
    var patients: seq<Patient>
    var tickets: seq<Ticket>

    ghost predicate Valid()
      reads this
    {
      WellFormed(patients, tickets)
    }

    constructor ()
      ensures Valid() && patients == [] && tickets == []
    {
      patients := [];
      tickets := [];
    }

    /** What `get-tickets` returns in the current state. */
    function Listing(): seq<TicketRow>
      reads this
    {
      ListTickets(patients, tickets)
    }

    /**
     * `create-ticket`. A given patient id must name a stored patient, or the
     * call fails and nothing is stored. Without one, a new patient is stored
     * under the request's name (which the handler does not check). The new
     * ticket is numbered from the count of tickets so far.
     */
    method CreateTicket(req: CreateRequest, now: int) returns (r: Result<TicketRow, Error>)
      requires Valid()
      modifies this
      ensures Valid()
      ensures Given(req.patientId) && GetPatient(old(patients), req.patientId.value).None? ==>
                r == Failure(PatientNotFound) && patients == old(patients) && tickets == old(tickets)
      ensures Given(req.patientId) && GetPatient(old(patients), req.patientId.value).Some? ==>
                var p := GetPatient(old(patients), req.patientId.value).value;
                && patients == old(patients)
                && r == Success(TicketRow(NewTicket(|old(tickets)|, req, p.id, now), Some(p)))
                && tickets == old(tickets) + [r.value.ticket]
      ensures !Given(req.patientId) ==>
                var p := Patient(PatientIdFor(|old(patients)|), req.name, now);
                && patients == old(patients) + [p]
                && r == Success(TicketRow(NewTicket(|old(tickets)|, req, p.id, now), Some(p)))
                && tickets == old(tickets) + [r.value.ticket]
    {
      var patient: Patient;
      if Given(req.patientId) {
        var found := GetPatient(patients, req.patientId.value);
        if found.None? {
          return Failure(PatientNotFound);
        }
        patient := found.value;
      } else {
        patient := Patient(PatientIdFor(|patients|), req.name, now);
        WellFormedAddPatient(patients, tickets, patient);
        patients := patients + [patient];
      }
      var ticket := NewTicket(|tickets|, req, patient.id, now);
      WellFormedAddTicket(patients, tickets, ticket);
      tickets := tickets + [ticket];
      r := Success(TicketRow(ticket, Some(patient)));
    }

    /**
     * `update-ticket-status`. The ticket with the given id, and only it, is
     * changed as `ApplyStatusUpdate` says; an unknown id fails and changes
     * nothing. The patients are never touched.
     */
    method UpdateTicketStatus(ticketId: string, status: string, roomId: Option<int>, now: int)
      returns (r: Result<TicketRow, Error>)
      requires Valid()
      modifies this
      ensures Valid()
      ensures patients == old(patients)
      ensures TicketIndex(old(tickets), ticketId).None? ==> r == Failure(TicketNotFound) && tickets == old(tickets)
      ensures TicketIndex(old(tickets), ticketId).Some? ==>
                var k := TicketIndex(old(tickets), ticketId).value;
                && tickets == old(tickets)[k := ApplyStatusUpdate(old(tickets)[k], status, roomId, now)]
                && r == Success(TicketRow(tickets[k], GetPatient(patients, tickets[k].patientId)))
    {
      var index := TicketIndex(tickets, ticketId);
      if index.None? {
        return Failure(TicketNotFound);
      }
      var k := index.value;
      var data := BuildUpdateData(status, roomId, now);
      var updated := Merge(tickets[k], data);
      WellFormedReplaceTicket(patients, tickets, k, updated);
      tickets := tickets[k := updated];
      r := Success(TicketRow(updated, GetPatient(patients, updated.patientId)));
    }
  }

  /**
   * After a successful create, `get-patient` finds the ticket's patient and
   * `get-tickets` lists the new ticket as waiting.
   */
  lemma {:induction false} CreatedTicketIsListed(patients: seq<Patient>, tickets: seq<Ticket>, t: Ticket, p: Patient)
    requires WellFormed(patients, tickets + [t])
    requires p in patients && t.patientId == p.id && t.status == WAITING
    ensures GetPatient(patients, t.patientId).Some?
    ensures TicketRow(t, GetPatient(patients, t.patientId)) in ListTickets(patients, tickets + [t])
    ensures IsWaiting(TicketRow(t, GetPatient(patients, t.patientId)))
  {
    var all := tickets + [t];
    var rows := Join(patients, all);
    assert rows[|all| - 1] == TicketRow(t, GetPatient(patients, t.patientId));
    assert rows[|all| - 1] in multiset(ListTickets(patients, all));
  }

  /** A patient created without an id is found again by `get-patient` under its new id. */
  lemma {:induction false} NewPatientIsFound(patients: seq<Patient>, name: string, now: int)
    requires PatientsIndexed(patients)
    ensures GetPatient(patients + [Patient(PatientIdFor(|patients|), name, now)], PatientIdFor(|patients|))
         == Some(Patient(PatientIdFor(|patients|), name, now))
  {
    var p := Patient(PatientIdFor(|patients|), name, now);
    var all := patients + [p];
    forall i | 0 <= i < |patients|
      ensures all[i].id != p.id
    {
      assert PatientIndexedAt(patients, i);
      IdForInjective(i, |patients|);
    }
    assert all[|patients|] == p;
    var r := GetPatient(all, p.id);
    var k :| 0 <= k < |all| && all[k] == r.value;
  }

  /**
   * Completing a ticket (any status text that upper-cases to COMPLETED, from
   * any previous status) makes `get-todays-completed` report it with no
   * room, for a midnight not after the completion time.
   */
  lemma {:induction false} CompletedIsReportedToday(patients: seq<Patient>, tickets: seq<Ticket>, k: nat, status: string,
                                 roomId: Option<int>, now: int, midnight: int)
    requires k < |tickets| && ToUpper(status) == COMPLETED && midnight <= now
    ensures var after := tickets[k := ApplyStatusUpdate(tickets[k], status, roomId, now)];
            && Join(patients, after)[k] in TodaysCompleted(patients, after, midnight)
            && Join(patients, after)[k].ticket.roomId.None?
            && Join(patients, after)[k] !in ActiveTreatments(patients, after)
  {
  }

  /**
   * Starting treatment in a room (status text upper-casing to IN_TREATMENT,
   * non-zero room) makes `get-active-treatments` report the ticket in that room.
   */
  lemma {:induction false} StartedIsActive(patients: seq<Patient>, tickets: seq<Ticket>, k: nat, status: string, room: int, now: int)
    requires k < |tickets| && ToUpper(status) == IN_TREATMENT && room != 0
    ensures var after := tickets[k := ApplyStatusUpdate(tickets[k], status, Some(room), now)];
            && Join(patients, after)[k] in ActiveTreatments(patients, after)
            && Join(patients, after)[k].ticket.roomId == Some(room)
            && !IsWaiting(Join(patients, after)[k])
  {
  }
}
