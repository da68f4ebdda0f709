/**
 * The patient history screen. It has no patient list of its own: it rebuilds
 * one from the `get-tickets` list by filing each ticket under its patient,
 * counts today's visits and the open cases, filters the list locally, and for
 * one patient shows the tickets newest first, the last visit and a
 * per-service breakdown.
 */
module PatientHistory {
  import opened Basics
  import opened Text
  import opened Domain
  import opened Registry

  /**
   * A patient as the screen builds it: the identity taken from the first
   * ticket that names the patient, and that patient's tickets in fetched order.
   */
  datatype PatientEntry = PatientEntry(id: string, name: string, createdAt: int, tickets: seq<TicketRow>)

  /** The ticket's joined patient has the id (`t.patient?.id === id`). */
  predicate BelongsTo(r: TicketRow, id: string) {
    r.patient.Some? && r.patient.value.id == id
  }

  function Of(id: string): TicketRow -> bool {
    (r: TicketRow) => BelongsTo(r, id)
  }

  predicate HasPatient(r: TicketRow) {
    r.patient.Some?
  }

  /** `patientMap.has(id)` and `patientMap.get(id)`: where the entry with the id is, if any. */
  function EntryIndex(entries: seq<PatientEntry>, id: string): (r: Option<nat>)
    ensures r.None? <==> forall i :: 0 <= i < |entries| ==> entries[i].id != id
    ensures r.Some? ==> r.value < |entries| && entries[r.value].id == id
  {
    FirstIndex((e: PatientEntry) => e.id == id, entries)
  }

  /** One step of the `forEach`: file a ticket under its patient, opening the entry on first sight. */
  function AddTicket(entries: seq<PatientEntry>, r: TicketRow): seq<PatientEntry> {
    if r.patient.None? then entries
    else
      var p := r.patient.value;
      match EntryIndex(entries, p.id)
      case None => entries + [PatientEntry(p.id, p.name, p.createdAt, [r])]
      case Some(j) => entries[j := entries[j].(tickets := entries[j].tickets + [r])]
  }

  /** The patient list after the `forEach` over `rows` (a `Map` keeps insertion order). */
  function Entries(rows: seq<TicketRow>): seq<PatientEntry> {
    if rows == [] then [] else AddTicket(Entries(rows[..|rows| - 1]), rows[|rows| - 1])
  }

  /** The patient ids the tickets name, in fetched order; tickets without a patient are skipped. */
  function PatientIds(rows: seq<TicketRow>): seq<string> {
    if rows == [] then []
    else
      var last := rows[|rows| - 1];
      PatientIds(rows[..|rows| - 1]) + if last.patient.Some? then [last.patient.value.id] else []
  }

  function Ids(entries: seq<PatientEntry>): (r: seq<string>)
    ensures |r| == |entries| && forall i :: 0 <= i < |entries| ==> r[i] == entries[i].id
  {
    seq(|entries|, i requires 0 <= i < |entries| => entries[i].id)
  }

  /** The entry holds exactly its patient's tickets, and its identity is that of the first of them. */
  ghost predicate EntryAt(entries: seq<PatientEntry>, rows: seq<TicketRow>, i: int) {
    0 <= i < |entries| ==>
      && entries[i].tickets == Filter(Of(entries[i].id), rows)
      && entries[i].tickets != []
      && entries[i].tickets[0].patient == Some(Patient(entries[i].id, entries[i].name, entries[i].createdAt))
  }

  /** A ticket with a patient has an entry. */
  ghost predicate CoveredAt(entries: seq<PatientEntry>, rows: seq<TicketRow>, k: int) {
    0 <= k < |rows| && rows[k].patient.Some? ==> rows[k].patient.value.id in Ids(entries)
  }

  /**
   * What the grouping guarantees: one entry per distinct patient id, in
   * order of first appearance; each holding exactly that patient's tickets
   * in fetched order; no ticket with a patient left out.
   */
  ghost predicate Grouped(entries: seq<PatientEntry>, rows: seq<TicketRow>) {
    && Ids(entries) == Dedup(PatientIds(rows))
    && (forall i :: EntryAt(entries, rows, i))
    && (forall k :: CoveredAt(entries, rows, k))
  }

  lemma {:induction false} FilterOfOne(id: string, r: TicketRow)
    ensures Filter(Of(id), [r]) == if BelongsTo(r, id) then [r] else []
  {
    assert [r][1..] == [];
  }

  /** The grouping of the whole list has the properties `Grouped` names. */
  lemma {:induction false} EntriesGrouped(rows: seq<TicketRow>)
    ensures Grouped(Entries(rows), rows)
    decreases |rows|
  {
    if rows == [] {
      return;
    }
    var n := |rows| - 1;
    var init := rows[..n];
    assert rows == init + [rows[n]];
    EntriesGrouped(init);
    GroupedStep(Entries(init), init, rows[n]);
  }

  /** Filing one more ticket keeps the grouping properties. */
  lemma {:induction false} GroupedStep(entries: seq<PatientEntry>, rows: seq<TicketRow>, r: TicketRow)
    requires Grouped(entries, rows)
    ensures Grouped(AddTicket(entries, r), rows + [r])
  {
    var all := rows + [r];
    assert all[..|all| - 1] == rows && all[|all| - 1] == r;
    if r.patient.None? {
      assert PatientIds(all) == PatientIds(rows);
      StepWithoutPatient(entries, rows, r);
    } else {
      assert PatientIds(all) == PatientIds(rows) + [r.patient.value.id];
      if EntryIndex(entries, r.patient.value.id).None? {
        StepNewEntry(entries, rows, r);
      } else {
        StepExistingEntry(entries, rows, r, EntryIndex(entries, r.patient.value.id).value);
      }
    }
  }

  lemma {:induction false} StepWithoutPatient(entries: seq<PatientEntry>, rows: seq<TicketRow>, r: TicketRow)
    requires Grouped(entries, rows) && r.patient.None?
    requires PatientIds(rows + [r]) == PatientIds(rows)
    ensures Grouped(entries, rows + [r])
  {
    var all := rows + [r];
    forall i
      ensures EntryAt(entries, all, i)
    {
      assert EntryAt(entries, rows, i);
      if 0 <= i < |entries| {
        FilterAppend(Of(entries[i].id), rows, [r]);
        FilterOfOne(entries[i].id, r);
      }
    }
    forall k
      ensures CoveredAt(entries, all, k)
    {
      assert CoveredAt(entries, rows, k);
    }
  }

  lemma {:induction false} StepNewEntry(entries: seq<PatientEntry>, rows: seq<TicketRow>, r: TicketRow)
    requires Grouped(entries, rows) && r.patient.Some? && EntryIndex(entries, r.patient.value.id).None?
    requires PatientIds(rows + [r]) == PatientIds(rows) + [r.patient.value.id]
    ensures var p := r.patient.value;
            Grouped(entries + [PatientEntry(p.id, p.name, p.createdAt, [r])], rows + [r])
  {
    var p := r.patient.value;
    var after := entries + [PatientEntry(p.id, p.name, p.createdAt, [r])];
    var all := rows + [r];
    assert Ids(after) == Ids(entries) + [p.id];
    var ids := PatientIds(all);
    assert ids[..|ids| - 1] == PatientIds(rows) && ids[|ids| - 1] == p.id;
    assert p.id !in Ids(entries);
    NoTicketsWithoutEntry(entries, rows, p.id);
    forall i
      ensures EntryAt(after, all, i)
    {
      assert EntryAt(entries, rows, i);
      OpenedEntryAt(entries, rows, r, i);
    }
    forall k
      ensures CoveredAt(after, all, k)
    {
      if 0 <= k < |rows| {
        assert CoveredAt(entries, rows, k);
        assert all[k] == rows[k];
      }
    }
  }

  lemma {:induction false} StepExistingEntry(entries: seq<PatientEntry>, rows: seq<TicketRow>, r: TicketRow, j: nat)
    requires Grouped(entries, rows) && r.patient.Some? && EntryIndex(entries, r.patient.value.id) == Some(j)
    requires PatientIds(rows + [r]) == PatientIds(rows) + [r.patient.value.id]
    ensures Grouped(entries[j := entries[j].(tickets := entries[j].tickets + [r])], rows + [r])
  {
    var after := entries[j := entries[j].(tickets := entries[j].tickets + [r])];
    var all := rows + [r];
    assert Ids(after) == Ids(entries);
    var ids := PatientIds(all);
    assert ids[..|ids| - 1] == PatientIds(rows) && ids[|ids| - 1] == r.patient.value.id;
    assert Ids(entries)[j] == r.patient.value.id;
    forall i
      ensures EntryAt(after, all, i)
    {
      assert EntryAt(entries, rows, i);
      if 0 <= i < |after| && i != j {
        assert Ids(entries)[i] != Ids(entries)[j];
      }
      ExtendedEntryAt(entries, rows, r, j, i);
    }
    forall k
      ensures CoveredAt(after, all, k)
    {
      if 0 <= k < |rows| {
        assert CoveredAt(entries, rows, k);
        assert all[k] == rows[k];
      }
    }
  }

  /** Opening an entry for a patient with no tickets so far keeps every entry exact. */
  lemma {:induction false} OpenedEntryAt(entries: seq<PatientEntry>, rows: seq<TicketRow>, r: TicketRow, i: int)
    requires r.patient.Some? && EntryAt(entries, rows, i)
    requires forall e :: 0 <= e < |entries| ==> entries[e].id != r.patient.value.id
    requires Filter(Of(r.patient.value.id), rows) == []
    ensures var p := r.patient.value;
            EntryAt(entries + [PatientEntry(p.id, p.name, p.createdAt, [r])], rows + [r], i)
  {
    var p := r.patient.value;
    var after := entries + [PatientEntry(p.id, p.name, p.createdAt, [r])];
    if 0 <= i < |after| {
      FilterAppend(Of(after[i].id), rows, [r]);
      FilterOfOne(after[i].id, r);
    }
  }

  /** Appending a ticket to entry `j` keeps entry `i` exact, given `i` is `j` or has another id. */
  lemma {:induction false} ExtendedEntryAt(entries: seq<PatientEntry>, rows: seq<TicketRow>, r: TicketRow, j: nat, i: int)
    requires j < |entries| && BelongsTo(r, entries[j].id) && EntryAt(entries, rows, i)
    requires 0 <= i < |entries| && i != j ==> entries[i].id != entries[j].id
    ensures EntryAt(entries[j := entries[j].(tickets := entries[j].tickets + [r])], rows + [r], i)
  {
    if 0 <= i < |entries| {
      FilterAppend(Of(entries[i].id), rows, [r]);
      FilterOfOne(entries[i].id, r);
    }
  }

  /** A patient id with no entry names none of the tickets. */
  lemma {:induction false} NoTicketsWithoutEntry(entries: seq<PatientEntry>, rows: seq<TicketRow>, id: string)
    requires forall k :: CoveredAt(entries, rows, k)
    requires id !in Ids(entries)
    ensures Filter(Of(id), rows) == []
  {
    forall k | 0 <= k < |rows|
      ensures !Of(id)(rows[k])
    {
      assert CoveredAt(entries, rows, k);
    }
    FilterNone(Of(id), rows);
  }

  /**
   * The grouping loop of `loadPatients`: for each fetched ticket with a
   * patient, open the patient's entry with no tickets if there is none yet,
   * then push the ticket onto it.
   */
  method GroupTickets(rows: seq<TicketRow>) returns (entries: seq<PatientEntry>)
    ensures entries == Entries(rows)
  {
    entries := [];
    var k := 0;
    while k < |rows|
      invariant 0 <= k <= |rows|
      invariant entries == Entries(rows[..k])
    {
      var r := rows[k];
      assert rows[..k + 1][..k] == rows[..k];
      ghost var before := entries;
      if r.patient.Some? {
        var p := r.patient.value;
        var at := EntryIndex(entries, p.id);
        if at.None? {
          entries := entries + [PatientEntry(p.id, p.name, p.createdAt, [])];
          at := Some(|entries| - 1);
        }
        entries := entries[at.value := entries[at.value].(tickets := entries[at.value].tickets + [r])];
        assert entries == AddTicket(before, r) by {
          if EntryIndex(before, p.id).None? {
            assert [] + [r] == [r];
          }
        }
      }
      k := k + 1;
    }
    assert rows[..|rows|] == rows;
  }

  /** The number of tickets filed over all entries. */
  function SumSizes(entries: seq<PatientEntry>): nat {
    if entries == [] then 0 else SumSizes(entries[..|entries| - 1]) + |entries[|entries| - 1].tickets|
  }

  lemma {:induction false} SumSizesUpdate(entries: seq<PatientEntry>, j: nat, e: PatientEntry)
    requires j < |entries|
    ensures SumSizes(entries[j := e]) + |entries[j].tickets| == SumSizes(entries) + |e.tickets|
  {
    var n := |entries| - 1;
    var after := entries[j := e];
    if j < n {
      assert after[..n] == entries[..n][j := e];
      SumSizesUpdate(entries[..n], j, e);
    } else {
      assert after[..n] == entries[..n];
    }
  }

  /** Every ticket with a patient is filed exactly once: the entry sizes add up to their number. */
  lemma {:induction false} GroupSizes(rows: seq<TicketRow>)
    ensures SumSizes(Entries(rows)) == |Filter(HasPatient, rows)|
    decreases |rows|
  {
    if rows != [] {
      var n := |rows| - 1;
      var init := rows[..n];
      var r := rows[n];
      assert rows == init + [r];
      GroupSizes(init);
      FilterAppend(HasPatient, init, [r]);
      assert [r][1..] == [];
      var entries := Entries(init);
      if r.patient.Some? {
        var p := r.patient.value;
        match EntryIndex(entries, p.id)
        case None =>
          var after := entries + [PatientEntry(p.id, p.name, p.createdAt, [r])];
          assert after[..|after| - 1] == entries;
        case Some(j) =>
          SumSizesUpdate(entries, j, entries[j].(tickets := entries[j].tickets + [r]));
      }
    }
  }

  /** The three figures at the top of the screen. */
  datatype Stats = Stats(totalPatients: nat, visitsToday: nat, activeCases: nat)

  /** Created at or after local midnight (`new Date(t.createdAt) >= today`). */
  function CreatedSince(midnight: int): TicketRow -> bool {
    (r: TicketRow) => r.ticket.createdAt >= midnight
  }

  /** WAITING or IN_TREATMENT. */
  predicate IsOpen(r: TicketRow) {
    IsWaiting(r) || IsInTreatment(r)
  }

  /** The figures `loadPatients` computes from a fetched list. */
  function StatsOf(rows: seq<TicketRow>, midnight: int): Stats {
    Stats(|Entries(rows)|, |Filter(CreatedSince(midnight), rows)|, |Filter(IsOpen, rows)|)
  }

  /**
   * The patient count is the number of distinct patients the tickets name,
   * and the open cases are the waiting tickets plus those in treatment.
   */
  lemma {:induction false} StatsCount(rows: seq<TicketRow>, midnight: int)
    ensures StatsOf(rows, midnight).totalPatients == |Dedup(PatientIds(rows))|
    ensures StatsOf(rows, midnight).activeCases == |Filter(IsWaiting, rows)| + |Filter(IsInTreatment, rows)|
    ensures StatsOf(rows, midnight).visitsToday <= |rows|
  {
    EntriesGrouped(rows);
    OpenSplits(rows);
  }

  lemma {:induction false} OpenSplits(rows: seq<TicketRow>)
    ensures |Filter(IsOpen, rows)| == |Filter(IsWaiting, rows)| + |Filter(IsInTreatment, rows)|
  {
    if rows != [] {
      OpenSplits(rows[1..]);
    }
  }

  /** `getVisitCount`: the entry's ticket count, 0 when the patient is not listed. */
  function VisitCount(entries: seq<PatientEntry>, id: string): nat {
    match EntryIndex(entries, id)
    case None => 0
    case Some(j) => |entries[j].tickets|
  }

  /** The visit count shown for a patient is the number of fetched tickets that name the patient. */
  lemma {:induction false} VisitCountIsTicketCount(rows: seq<TicketRow>, id: string)
    ensures VisitCount(Entries(rows), id) == |Filter(Of(id), rows)|
  {
    var entries := Entries(rows);
    EntriesGrouped(rows);
    match EntryIndex(entries, id)
    case None =>
      NoTicketsWithoutEntry(entries, rows, id);
    case Some(j) =>
      assert EntryAt(entries, rows, j);
  }

  /** `s[m]` is the newest ticket of `s`, and no earlier ticket is as new. */
  predicate FirstNewestAt(s: seq<TicketRow>, m: int) {
    && 0 <= m < |s|
    && (forall j :: 0 <= j < |s| ==> s[j].ticket.createdAt <= s[m].ticket.createdAt)
    && (forall j :: 0 <= j < m ==> s[j].ticket.createdAt < s[m].ticket.createdAt)
  }

  /**
   * The `reduce` of `getLastVisit`, by position: a later ticket replaces
   * the one kept only when it is strictly newer, so the first of the newest
   * tickets is kept.
   */
  function LatestIndex(s: seq<TicketRow>): (m: nat)
    requires s != []
    ensures FirstNewestAt(s, m)
    decreases |s|
  {
    if |s| == 1 then 0
    else
      var n := |s| - 1;
      var kept := LatestIndex(s[..n]);
      assert forall j :: 0 <= j < n ==> s[..n][j] == s[j];
      if s[n].ticket.createdAt > s[kept].ticket.createdAt then n else kept
  }

  /** `getLastVisit`: no ticket for a patient with none, else the first of its newest tickets. */
  function LastVisit(entries: seq<PatientEntry>, id: string): (r: Option<TicketRow>)
    ensures r.None? <==> VisitCount(entries, id) == 0
  {
    var tickets := match EntryIndex(entries, id) case None => [] case Some(j) => entries[j].tickets;
    if tickets == [] then None else Some(tickets[LatestIndex(tickets)])
  }

  /**
   * `loadPatientTickets`: the tickets naming the patient, newest first (a
   * stable sort, so equally new tickets keep fetched order).
   */
  function PatientTickets(rows: seq<TicketRow>, id: string): seq<TicketRow> {
    SortDesc(Filter(Of(id), rows), ByCreatedAt)
  }

  /**
   * The detail view lists exactly the fetched tickets of the patient, each
   * as often as fetched, newest first.
   */
  lemma {:induction false} PatientTicketsSpec(rows: seq<TicketRow>, id: string)
    ensures var r := PatientTickets(rows, id);
            && SortedDesc(r, ByCreatedAt)
            && multiset(r) == multiset(Filter(Of(id), rows))
            && (forall i :: 0 <= i < |r| ==> BelongsTo(r[i], id) && r[i] in rows)
  {
    SortDescSameElements(Filter(Of(id), rows), ByCreatedAt);
  }

  /** Newest first puts the first of the newest tickets at the head. */
  lemma {:induction false} SortDescHead(s: seq<TicketRow>, m: nat)
    requires FirstNewestAt(s, m)
    ensures SortDesc(s, ByCreatedAt)[0] == s[m]
    decreases |s|
  {
    var t := s[1..];
    if t != [] {
      var rest := SortDesc(t, ByCreatedAt);
      assert SortDesc(s, ByCreatedAt) == InsertDesc(s[0], rest, ByCreatedAt);
      if m == 0 {
        HeadStaysFirst(s);
      } else {
        TailFirstNewest(s, m);
        SortDescHead(t, m - 1);
      }
    }
  }

  /** A head at least as new as every later ticket stays at the head. */
  lemma HeadStaysFirst(s: seq<TicketRow>)
    requires FirstNewestAt(s, 0) && |s| > 1
    ensures InsertDesc(s[0], SortDesc(s[1..], ByCreatedAt), ByCreatedAt)[0] == s[0]
  {
    var rest := SortDesc(s[1..], ByCreatedAt);
    assert rest[0] in multiset(s[1..]);
    assert rest[0] in s[1..];
  }

  /** Past a head that is not the newest, the first newest ticket is one place earlier in the tail. */
  lemma TailFirstNewest(s: seq<TicketRow>, m: nat)
    requires FirstNewestAt(s, m) && m > 0
    ensures FirstNewestAt(s[1..], m - 1)
  {
    assert forall j :: 0 <= j < |s[1..]| ==> s[1..][j] == s[j + 1];
  }

  /**
   * The last visit the list shows for a patient is the first ticket of the
   * patient's detail view built from the same fetch (none for a patient
   * without tickets), even when several tickets are equally new.
   */
  lemma {:induction false} LastVisitMatchesDetail(rows: seq<TicketRow>, id: string)
    ensures var detail := PatientTickets(rows, id);
            LastVisit(Entries(rows), id) == if detail == [] then None else Some(detail[0])
  {
    var entries := Entries(rows);
    var own := Filter(Of(id), rows);
    EntriesGrouped(rows);
    match EntryIndex(entries, id)
    case None =>
      NoTicketsWithoutEntry(entries, rows, id);
    case Some(j) =>
      assert EntryAt(entries, rows, j);
      SortDescHead(own, LatestIndex(own));
  }

  /** The local search: name or id contains the query, ignoring ASCII case. */
  predicate MatchesQuery(query: string, e: PatientEntry) {
    Contains(ToLower(e.name), ToLower(query)) || Contains(ToLower(e.id), ToLower(query))
  }

  /** `filteredPatients`: the listed patients matching the search box, in list order. */
  function FilteredPatients(entries: seq<PatientEntry>, query: string): (r: seq<PatientEntry>)
    ensures forall i :: 0 <= i < |r| ==> r[i] in entries && MatchesQuery(query, r[i])
    ensures forall i :: 0 <= i < |entries| && MatchesQuery(query, entries[i]) ==> entries[i] in r
  {
    Filter((e: PatientEntry) => MatchesQuery(query, e), entries)
  }

  /** An empty search box lists every patient. */
  lemma {:induction false} EmptyQueryKeepsAll(entries: seq<PatientEntry>)
    ensures FilteredPatients(entries, "") == entries
  {
    forall i | 0 <= i < |entries|
      ensures MatchesQuery("", entries[i])
    {
      ContainsEmpty(ToLower(entries[i].name));
    }
    FilterKeepsAll((e: PatientEntry) => MatchesQuery("", e), entries);
  }

  /** The service types of the tickets, one per ticket. */
  function Types(tickets: seq<TicketRow>): (r: seq<string>)
    ensures |r| == |tickets| && forall i :: 0 <= i < |tickets| ==> r[i] == tickets[i].ticket.serviceType
  {
    seq(|tickets|, i requires 0 <= i < |tickets| => tickets[i].ticket.serviceType)
  }

  /** The breakdown's rows: each service type once, in order of first appearance. */
  function ServiceTypes(tickets: seq<TicketRow>): seq<string> {
    Dedup(Types(tickets))
  }

  function OfType(serviceType: string): TicketRow -> bool {
    (r: TicketRow) => r.ticket.serviceType == serviceType
  }

  /** The count next to a service type: the tickets of that type. */
  function VisitsOfType(tickets: seq<TicketRow>, serviceType: string): nat {
    |Filter(OfType(serviceType), tickets)|
  }

  /** The counts of the listed types, added up. */
  function TotalVisits(types: seq<string>, tickets: seq<TicketRow>): nat {
    if types == [] then 0 else VisitsOfType(tickets, types[0]) + TotalVisits(types[1..], tickets)
  }

  lemma {:induction false} VisitsOfTypeCount(tickets: seq<TicketRow>, serviceType: string)
    ensures VisitsOfType(tickets, serviceType) == Count(serviceType, Types(tickets))
  {
    if tickets != [] {
      VisitsOfTypeCount(tickets[1..], serviceType);
      assert Types(tickets) == [tickets[0].ticket.serviceType] + Types(tickets[1..]);
    }
  }

  lemma {:induction false} TotalVisitsCounts(types: seq<string>, tickets: seq<TicketRow>)
    ensures TotalVisits(types, tickets) == SumCounts(types, Types(tickets))
  {
    if types != [] {
      VisitsOfTypeCount(tickets, types[0]);
      TotalVisitsCounts(types[1..], tickets);
    }
  }

  /**
   * The service breakdown lists every type that occurs, each once and each
   * with at least one visit, and its counts add up to the number of tickets.
   */
  lemma {:induction false} BreakdownCoversAll(tickets: seq<TicketRow>)
    ensures Distinct(ServiceTypes(tickets))
    ensures forall i :: 0 <= i < |tickets| ==> tickets[i].ticket.serviceType in ServiceTypes(tickets)
    ensures forall i :: 0 <= i < |ServiceTypes(tickets)| ==> VisitsOfType(tickets, ServiceTypes(tickets)[i]) > 0
    ensures TotalVisits(ServiceTypes(tickets), tickets) == |tickets|
  {
    var types := Types(tickets);
    var keys := ServiceTypes(tickets);
    forall i | 0 <= i < |keys|
      ensures VisitsOfType(tickets, keys[i]) > 0
    {
      VisitsOfTypeCount(tickets, keys[i]);
      assert keys[i] in types;
    }
    TotalVisitsCounts(keys, tickets);
    SumCountsCoversAll(keys, types);
  }

  /** Which half of the screen is shown. */
  datatype Mode = ListMode | DetailMode

  /** The patient history screen's state. */
  class History {
    var patients: seq<PatientEntry>
    var stats: Stats
    var selectedPatient: Option<PatientEntry>
    var patientTickets: seq<TicketRow>
    var viewMode: Mode
    var searchQuery: string
    var error: Option<string>

    constructor ()
      ensures patients == [] && stats == Stats(0, 0, 0) && selectedPatient.None? && patientTickets == []
      ensures viewMode == ListMode && searchQuery == "" && error.None?
    {
      patients := [];
      stats := Stats(0, 0, 0);
      selectedPatient := None;
      patientTickets := [];
      viewMode := ListMode;
      searchQuery := "";
      error := None;
    }

    /**
     * `loadPatients`: fetch the tickets, group them by patient and compute
     * the figures, `midnight` being the start of the local day.
     */
    method LoadPatients(reg: Store, midnight: int)
      modifies this
      ensures patients == Entries(reg.Listing()) && stats == StatsOf(reg.Listing(), midnight) && error.None?
      ensures selectedPatient == old(selectedPatient) && patientTickets == old(patientTickets)
      ensures viewMode == old(viewMode) && searchQuery == old(searchQuery)
    {
      error := None;
      var rows := reg.Listing();
      var list := GroupTickets(rows);
      patients := list;
      stats := Stats(|list|, |Filter(CreatedSince(midnight), rows)|, |Filter(IsOpen, rows)|);
    }

    /** `loadPatientTickets`: fetch the tickets and keep the patient's, newest first. */
    method LoadPatientTickets(reg: Store, id: string)
      modifies this
      ensures patientTickets == PatientTickets(reg.Listing(), id) && error.None?
      ensures patients == old(patients) && stats == old(stats) && selectedPatient == old(selectedPatient)
      ensures viewMode == old(viewMode) && searchQuery == old(searchQuery)
    {
      var rows := reg.Listing();
      ShowTickets(PatientTickets(rows, id));
    }

    /** Show a fetched ticket list in the detail view. */
    method ShowTickets(tickets: seq<TicketRow>)
      modifies this
      ensures patientTickets == tickets && error.None?
      ensures patients == old(patients) && stats == old(stats) && selectedPatient == old(selectedPatient)
      ensures viewMode == old(viewMode) && searchQuery == old(searchQuery)
    {
      error := None;
      patientTickets := tickets;
    }

    /** `handleSelectPatient`: select the patient, load its tickets and open the detail view. */
    method HandleSelectPatient(reg: Store, patient: PatientEntry)
      modifies this
      ensures selectedPatient == Some(patient) && viewMode == DetailMode
      ensures patientTickets == PatientTickets(reg.Listing(), patient.id) && error.None?
      ensures patients == old(patients) && stats == old(stats) && searchQuery == old(searchQuery)
    {
      selectedPatient := Some(patient);
      LoadPatientTickets(reg, patient.id);
      viewMode := DetailMode;
    }

    /** Typing in the search box. */
    method EditSearch(query: string)
      modifies this
      ensures searchQuery == query
      ensures patients == old(patients) && stats == old(stats) && selectedPatient == old(selectedPatient)
      ensures patientTickets == old(patientTickets) && viewMode == old(viewMode) && error == old(error)
    {
      searchQuery := query;
    }
  }
}
