/**
 * The records the queue works on, as the main process stores them and the
 * screens receive them: patients, tickets, a ticket together with its
 * patient (what `include: { patient: true }` returns), the registration
 * form, and the rules every part shares (status names, the ticket number
 * format, the priority scale, newest-first ordering).
 */
module Domain {
  import opened Basics
  import opened Text

  /** A patient record. Timestamps are integers (milliseconds). */
  datatype Patient = Patient(id: string, name: string, createdAt: int)

  /**
   * A ticket record. `status` is free text in the store (the status update
   * writes whatever upper-cased text it is given); `serviceType` is the
   * column the source calls `type`.
   */
  datatype Ticket = Ticket(
    id: string,
    number: string,
    status: string,
    serviceType: string,
    priority: int,
    notes: Option<string>,
    patientId: string,
    roomId: Option<int>,
    createdAt: int,
    updatedAt: int,
    completedAt: Option<int>)

  /** A ticket as the read handlers return it: with its patient joined in (`null` if missing). */
  datatype TicketRow = TicketRow(ticket: Ticket, patient: Option<Patient>)

  /** The registration form shared by the reception and doctor screens. */
  datatype FormData = FormData(name: string, service: string, priority: string, notes: string, patientId: Option<string>)

  /** The four inputs of the registration form. */
  datatype Field = Name | Service | Priority | Notes

  /** `{ ...form, [field]: value }`: the form with one field replaced. */
  function WithField(form: FormData, field: Field, value: string): (r: FormData)
    ensures field == Name ==> r == form.(name := value)
    ensures field == Service ==> r == form.(service := value)
    ensures field == Priority ==> r == form.(priority := value)
    ensures field == Notes ==> r == form.(notes := value)
  {
    match field
    case Name => form.(name := value)
    case Service => form.(service := value)
    case Priority => form.(priority := value)
    case Notes => form.(notes := value)
  }

  const WAITING: string := "WAITING"
  const IN_TREATMENT: string := "IN_TREATMENT"
  const COMPLETED: string := "COMPLETED"

  /** The service recorded when the request names none. */
  const DEFAULT_SERVICE: string := "General Consultation"

  predicate IsWaiting(r: TicketRow) {
    r.ticket.status == WAITING
  }

  predicate IsInTreatment(r: TicketRow) {
    r.ticket.status == IN_TREATMENT
  }

  /** The status names are already upper case, so the status update stores them as given. */
  lemma StatusNamesUpper()
    ensures ToUpper(WAITING) == WAITING
    ensures ToUpper(IN_TREATMENT) == IN_TREATMENT
    ensures ToUpper(COMPLETED) == COMPLETED
  {
    assert ToUpper(WAITING) == WAITING;
    assert ToUpper(IN_TREATMENT) == IN_TREATMENT;
    assert ToUpper(COMPLETED) == COMPLETED;
  }

  /**
   * The display number of the `n`-th ticket: "A-" followed by `n` in decimal,
   * left-padded with '0' to at least three digits.
   */
  function TicketNumber(n: nat): (r: string)
    ensures |r| >= 5 && r[..2] == "A-"
  {
    "A-" + PadStart(NatToString(n), 3, '0')
  }

  /**
   * The layout of a ticket number: exactly `max(3, digits)` characters after
   * "A-", zeros first, then the decimal digits of `n` in full (a number with
   * more than three digits is never cut), so the part after "A-" reads back
   * as `n`.
   */
  lemma {:induction false} TicketNumberFormat(n: nat)
    ensures |TicketNumber(n)| == 2 + (if |NatToString(n)| >= 3 then |NatToString(n)| else 3)
    ensures TicketNumber(n)[|TicketNumber(n)| - |NatToString(n)|..] == NatToString(n)
    ensures forall i :: 2 <= i < |TicketNumber(n)| - |NatToString(n)| ==> TicketNumber(n)[i] == '0'
  {
    var digits := NatToString(n);
    TicketNumberShape(n);
    var r := TicketNumber(n);
    assert r[|r| - |digits|..] == digits;
  }

  /** The numeric part of a ticket number ("A-042" has 42), or -1 when the text after "A-" is not all digits. */
  function NumberValue(number: string): int {
    if |number| >= 2 && AllDigits(number[2..]) then ParseDigits(number[2..]) else -1
  }

  /** The part after "A-" consists of digits and reads back as `n`. */
  lemma {:induction false} TicketNumberValue(n: nat)
    ensures NumberValue(TicketNumber(n)) == n
  {
    var digits := NatToString(n);
    var zeros := Repeat('0', if |digits| >= 3 then 0 else 3 - |digits|);
    TicketNumberShape(n);
    assert TicketNumber(n)[2..] == zeros + digits;
    ParseNatToString(n);
    ParseLeadingZeros(|zeros|, digits);
  }

  lemma {:induction false} TicketNumberShape(n: nat)
    ensures TicketNumber(n) == "A-" + (Repeat('0', if |NatToString(n)| >= 3 then 0 else 3 - |NatToString(n)|) + NatToString(n))
  {
    var digits := NatToString(n);
    assert PadStart(digits, 3, '0') == Repeat('0', if |digits| >= 3 then 0 else 3 - |digits|) + digits;
  }

  /** Two ticket numbers are equal only for the same count. */
  lemma TicketNumberInjective(a: nat, b: nat)
    requires TicketNumber(a) == TicketNumber(b)
    ensures a == b
  {
    TicketNumberValue(a);
    TicketNumberValue(b);
  }

  /**
   * The priority scale: "Normal" is 0, "Urgent" 1 and "Critical" 2; any other
   * text, or none, is 0 (`priorityMap[text] || 0`).
   */
  function PriorityFromText(text: Option<string>): (r: int)
    ensures 0 <= r <= 2
    ensures r == 1 <==> text == Some("Urgent")
    ensures r == 2 <==> text == Some("Critical")
  {
    match text {
      case Some("Urgent") => 1
      case Some("Critical") => 2
      case _ => 0
    }
  }

  /** The label a screen shows for a stored priority: 2 is "Critical", 1 "Urgent", anything else "Normal". */
  function PriorityText(priority: int): (r: string)
    ensures r == "Critical" <==> priority == 2
    ensures r == "Urgent" <==> priority == 1
    ensures r == "Normal" <==> priority != 1 && priority != 2
  {
    if priority == 2 then "Critical" else if priority == 1 then "Urgent" else "Normal"
  }

  /**
   * The label and the form's priority choice are inverse to each other: a
   * stored priority on the scale is labelled with the text that produces it,
   * and each of the three choices is labelled with itself once stored.
   */
  lemma PriorityTextRoundTrip(priority: int, choice: string)
    requires 0 <= priority <= 2
    requires choice == "Normal" || choice == "Urgent" || choice == "Critical"
    ensures PriorityFromText(Some(PriorityText(priority))) == priority
    ensures PriorityText(PriorityFromText(Some(choice))) == choice
  {
    if priority == 0 {
      assert PriorityText(0) == "Normal";
      assert "Normal" != "Urgent" && "Normal" != "Critical";
    }
  }

  /** The timestamp a listing is ordered by. */
  datatype TimeKey = ByCreatedAt | ByUpdatedAt

  function KeyOf(r: TicketRow, k: TimeKey): int {
    match k
    case ByCreatedAt => r.ticket.createdAt
    case ByUpdatedAt => r.ticket.updatedAt
  }

  /** Newest first: the key never increases from one element to the next. */
  predicate SortedDesc(s: seq<TicketRow>, k: TimeKey) {
    forall i :: 0 < i < |s| ==> KeyOf(s[i - 1], k) >= KeyOf(s[i], k)
  }

  /** In a newest-first sequence, every element is at least as new as any later one. */
  lemma {:induction false} SortedDescPairwise(s: seq<TicketRow>, k: TimeKey, i: nat, j: nat)
    requires SortedDesc(s, k) && i <= j < |s|
    ensures KeyOf(s[i], k) >= KeyOf(s[j], k)
    decreases j - i
  {
    if i < j {
      SortedDescPairwise(s, k, i + 1, j);
    }
  }

  /** Filtering a newest-first sequence keeps it newest first: nothing is reordered. */
  lemma {:induction false} FilterSortedDesc(p: TicketRow -> bool, s: seq<TicketRow>, k: TimeKey)
    requires SortedDesc(s, k)
    ensures SortedDesc(Filter(p, s), k)
  {
    if s != [] {
      var rest := Filter(p, s[1..]);
      SortedDescTail(s, k);
      FilterSortedDesc(p, s[1..], k);
      if p(s[0]) {
        if rest != [] {
          assert rest[0] in s[1..];
          var m :| 0 <= m < |s[1..]| && s[1..][m] == rest[0];
          SortedDescPairwise(s, k, 0, m + 1);
        }
        SortedDescCons(s[0], rest, k);
        assert Filter(p, s) == [s[0]] + rest;
      } else {
        assert Filter(p, s) == [] + rest == rest;
      }
    }
  }

  lemma {:induction false} SortedDescTail(s: seq<TicketRow>, k: TimeKey)
    requires SortedDesc(s, k) && s != []
    ensures SortedDesc(s[1..], k)
  {
    forall i | 0 < i < |s[1..]|
      ensures KeyOf(s[1..][i - 1], k) >= KeyOf(s[1..][i], k)
    {
      assert s[1..][i - 1] == s[i] && s[1..][i] == s[i + 1];
    }
  }

  lemma {:induction false} SortedDescCons(x: TicketRow, s: seq<TicketRow>, k: TimeKey)
    requires SortedDesc(s, k) && (s != [] ==> KeyOf(x, k) >= KeyOf(s[0], k))
    ensures SortedDesc([x] + s, k)
  {
    var r := [x] + s;
    forall i | 0 < i < |r|
      ensures KeyOf(r[i - 1], k) >= KeyOf(r[i], k)
    {
      if i > 1 {
        assert r[i - 1] == s[i - 2] && r[i] == s[i - 1];
      }
    }
  }

  function InsertDesc(x: TicketRow, s: seq<TicketRow>, k: TimeKey): (r: seq<TicketRow>)
    requires SortedDesc(s, k)
    ensures SortedDesc(r, k)
    ensures multiset(r) == multiset(s) + multiset{x}
    ensures r != [] && (r[0] == x || (s != [] && r[0] == s[0]))
  {
    if s == [] || KeyOf(x, k) >= KeyOf(s[0], k) then
      SortedDescCons(x, s, k);
      [x] + s
    else
      SortedDescTail(s, k);
      var rest := InsertDesc(x, s[1..], k);
      assert s[1..] != [] ==> KeyOf(s[0], k) >= KeyOf(s[1..][0], k);
      SortedDescCons(s[0], rest, k);
      assert s == [s[0]] + s[1..];
      [s[0]] + rest
  }

  /**
   * Ordering by a timestamp, newest first (`orderBy: { createdAt: 'desc' }`,
   * or a comparator `b - a`): a permutation of the input in which the key
   * never increases. Equal keys keep their input order.
   */
  function SortDesc(s: seq<TicketRow>, k: TimeKey): (r: seq<TicketRow>)
    ensures SortedDesc(r, k)
    ensures multiset(r) == multiset(s)
    ensures |r| == |s|
  {
    if s == [] then []
    else
      assert s == [s[0]] + s[1..];
      InsertDesc(s[0], SortDesc(s[1..], k), k)
  }

  /** Sorting neither drops nor invents elements. */
  lemma {:induction false} SortDescSameElements(s: seq<TicketRow>, k: TimeKey)
    ensures forall i :: 0 <= i < |SortDesc(s, k)| ==> SortDesc(s, k)[i] in s
    ensures forall i :: 0 <= i < |s| ==> s[i] in SortDesc(s, k)
  {
    SameElements(SortDesc(s, k), s);
  }

  /** An input that is already newest first is returned unchanged. */
  lemma {:induction false} SortDescOfSorted(s: seq<TicketRow>, k: TimeKey)
    requires SortedDesc(s, k)
    ensures SortDesc(s, k) == s
  {
    if s != [] {
      SortDescOfSorted(s[1..], k);
    }
  }
}
