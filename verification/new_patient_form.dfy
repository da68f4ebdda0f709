/**
 * The registration form used at reception: a new patient is registered by
 * name, a returning one is picked from a search. The form's state changes
 * through its handlers and through the search effect that runs whenever the
 * query or the mode changes.
 */
module NewPatientForm {
  import opened Basics
  import opened Text
  import opened Domain
  import opened Registry

  /** The services the form offers, in display order. */
  const SERVICES: seq<string> :=
    ["General Consultation", "Laboratory", "Radiology", "Emergency", "Pharmacy", "Follow-up"]

  /** The form before any input: no name, the first service, normal priority, no notes. */
  const INITIAL_FORM: FormData := FormData("", SERVICES[0], "Normal", "", None)

  /**
   * An untouched form asks for what the store would assume anyway: the
   * default service and priority 0. Its blank name cannot be submitted.
   */
  lemma InitialFormDefaults()
    ensures INITIAL_FORM.service == DEFAULT_SERVICE && INITIAL_FORM.service in SERVICES
    ensures PriorityFromText(Some(INITIAL_FORM.priority)) == 0
    ensures IsBlank(INITIAL_FORM.name) && INITIAL_FORM.patientId.None?
  {
    assert INITIAL_FORM.priority == "Normal";
    assert "Normal" != "Urgent" && "Normal" != "Critical";
  }

  /** The search effect's condition: existing-patient mode and a query of two or more characters once trimmed. */
  predicate SearchIssued(isNewPatient: bool, query: string) {
    !isNewPatient && |Trim(query)| >= 2
  }

  /**
   * `handleSubmit`: what reaches `onSubmit`, if anything. A new patient
   * needs a name that is not blank and is sent as typed; a returning patient
   * needs a selection, whose id and name replace the form's.
   */
  function Submission(isNewPatient: bool, form: FormData, selected: Option<Patient>): (r: Option<FormData>)
    ensures isNewPatient ==> (r.Some? <==> !IsBlank(form.name)) && (r.Some? ==> r.value == form)
    ensures !isNewPatient ==> (r.Some? <==> selected.Some?)
    ensures !isNewPatient && r.Some? ==>
              && r.value.patientId == Some(selected.value.id) && r.value.name == selected.value.name
              && r.value.service == form.service && r.value.priority == form.priority && r.value.notes == form.notes
  {
    if isNewPatient then
      if IsBlank(form.name) then None else Some(form)
    else
      if selected.None? then None
      else Some(form.(patientId := Some(selected.value.id), name := selected.value.name))
  }

  /**
   * What the store does with a submission. A new patient's request names no
   * patient, so the store registers one under the (non-blank) typed name.
   * A returning patient's request names the selected patient, who is found
   * when the selection came from the store.
   */
  lemma SubmissionRequest(patients: seq<Patient>, isNewPatient: bool, form: FormData, selected: Option<Patient>)
    requires form.patientId.None?
    requires Submission(isNewPatient, form, selected).Some?
    ensures var req := RequestOf(Submission(isNewPatient, form, selected).value);
            isNewPatient ==> !Given(req.patientId) && req.name == form.name && !IsBlank(req.name)
    ensures var req := RequestOf(Submission(isNewPatient, form, selected).value);
            !isNewPatient && selected.value in patients && selected.value.id != "" ==>
              && Given(req.patientId)
              && GetPatient(patients, req.patientId.value).Some?
              && GetPatient(patients, req.patientId.value).value.id == selected.value.id
  {
    if !isNewPatient && selected.value in patients {
      var k :| 0 <= k < |patients| && patients[k] == selected.value;
      assert patients[k].id == selected.value.id;
    }
  }

  /**
   * A patient the search returned for a query that triggers a search has a
   * name that triggers one too: the name contains the query's two outer
   * non-whitespace characters.
   */
  lemma {:induction false} SearchResultNameSearches(patients: seq<Patient>, query: string, p: Patient)
    requires SearchIssued(false, query) && p in SearchPatients(patients, query)
    ensures SearchIssued(false, p.name)
  {
    var r := SearchPatients(patients, query);
    var m :| 0 <= m < |r| && r[m] == p;
    assert NameMatches(query, p);
    LowerContainsKeepsTwo(p.name, query);
  }

  /** The form's state. */
  class FormState {
    var isNewPatient: bool
    var searchQuery: string
    var searchResults: seq<Patient>
    var selectedPatient: Option<Patient>
    var isSearching: bool
    var form: FormData

    /** The form never carries a patient id of its own: only a submission adds one. */
    predicate Valid()
      reads this
    {
      form.patientId.None?
    }

    constructor ()
      ensures Valid()
      ensures isNewPatient && searchQuery == "" && searchResults == [] && selectedPatient.None?
      ensures !isSearching && form == INITIAL_FORM
    {
      isNewPatient := true;
      searchQuery := "";
      searchResults := [];
      selectedPatient := None;
      isSearching := false;
      form := INITIAL_FORM;
    }

    /** `handleSubmit`: the data handed to `onSubmit`, or none when a guard stops it. */
    method HandleSubmit() returns (submitted: Option<FormData>)
      ensures submitted == Submission(isNewPatient, form, selectedPatient)
    {
      if isNewPatient {
        if IsBlank(form.name) {
          return None;
        }
        submitted := Some(form);
      } else {
        if selectedPatient.None? {
          return None;
        }
        var p := selectedPatient.value;
        submitted := Some(form.(patientId := Some(p.id), name := p.name));
      }
    }

    /** `updateField`: one field of the form changes and nothing else. */
    method UpdateField(field: Field, value: string)
      requires Valid()
      modifies this
      ensures Valid() && form == WithField(old(form), field, value)
      ensures isNewPatient == old(isNewPatient) && searchQuery == old(searchQuery)
      ensures searchResults == old(searchResults) && selectedPatient == old(selectedPatient)
      ensures isSearching == old(isSearching)
    {
      form := WithField(form, field, value);
    }

    /** `handlePatientSelect`: remember the patient, show its name in the search box, hide the results. */
    method HandlePatientSelect(p: Patient)
      modifies this
      ensures selectedPatient == Some(p) && searchQuery == p.name && searchResults == []
      ensures isNewPatient == old(isNewPatient) && isSearching == old(isSearching) && form == old(form)
    {
      selectedPatient := Some(p);
      searchQuery := p.name;
      searchResults := [];
    }

    /** `clearSelection`: no selection, an empty search box and no results. */
    method ClearSelection()
      modifies this
      ensures selectedPatient.None? && searchQuery == "" && searchResults == []
      ensures isNewPatient == old(isNewPatient) && isSearching == old(isSearching) && form == old(form)
    {
      selectedPatient := None;
      searchQuery := "";
      searchResults := [];
    }

    /** The "New Patient" choice: switch mode and clear any selection. */
    method ChooseNewPatient()
      modifies this
      ensures isNewPatient && selectedPatient.None? && searchQuery == "" && searchResults == []
      ensures isSearching == old(isSearching) && form == old(form)
    {
      isNewPatient := true;
      ClearSelection();
    }

    /** The "Existing Patient" choice: only the mode changes. */
    method ChooseExistingPatient()
      modifies this
      ensures !isNewPatient
      ensures searchQuery == old(searchQuery) && searchResults == old(searchResults)
      ensures selectedPatient == old(selectedPatient) && isSearching == old(isSearching) && form == old(form)
    {
      isNewPatient := false;
    }

    /** Typing in the search box. */
    method EditSearchQuery(query: string)
      modifies this
      ensures searchQuery == query
      ensures isNewPatient == old(isNewPatient) && searchResults == old(searchResults)
      ensures selectedPatient == old(selectedPatient) && isSearching == old(isSearching) && form == old(form)
    {
      searchQuery := query;
    }

    /**
     * The search effect, run after the query or the mode changed: it
     * issues a search for the query (returned here, to be answered by
     * `SearchFinished`) when the condition holds, and otherwise empties the
     * results and drops the selection.
     */
    method SearchEffect() returns (issued: Option<string>)
      modifies this
      ensures SearchIssued(old(isNewPatient), old(searchQuery)) ==>
                issued == Some(old(searchQuery)) && isSearching
                && searchResults == old(searchResults) && selectedPatient == old(selectedPatient)
      ensures !SearchIssued(old(isNewPatient), old(searchQuery)) ==>
                issued.None? && searchResults == [] && selectedPatient.None? && isSearching == old(isSearching)
      ensures isNewPatient == old(isNewPatient) && searchQuery == old(searchQuery) && form == old(form)
    {
      if SearchIssued(isNewPatient, searchQuery) {
        issued := StartSearch();
      } else {
        issued := None;
        DropResults();
      }
    }

    /** The searching branch of the effect. */
    method StartSearch() returns (issued: Option<string>)
      modifies this
      ensures issued == Some(searchQuery) && isSearching
      ensures searchResults == old(searchResults) && selectedPatient == old(selectedPatient)
      ensures isNewPatient == old(isNewPatient) && searchQuery == old(searchQuery) && form == old(form)
    {
      isSearching := true;
      issued := Some(searchQuery);
    }

    /** The other branch of the effect: no results and no selection. */
    method DropResults()
      modifies this
      ensures searchResults == [] && selectedPatient.None? && isSearching == old(isSearching)
      ensures isNewPatient == old(isNewPatient) && searchQuery == old(searchQuery) && form == old(form)
    {
      searchResults := [];
      selectedPatient := None;
    }

    /** The search's answer: the results when it succeeded; either way the spinner stops. */
    method SearchFinished(results: Option<seq<Patient>>)
      modifies this
      ensures !isSearching
      ensures searchResults == if results.Some? then results.value else old(searchResults)
      ensures isNewPatient == old(isNewPatient) && searchQuery == old(searchQuery)
      ensures selectedPatient == old(selectedPatient) && form == old(form)
    {
      if results.Some? {
        searchResults := results.value;
      }
      isSearching := false;
    }

    /**
     * Picking a result, followed by the re-render: the search effect runs
     * again when the query text changed. A pick survives exactly when the
     * query did not change or the patient's name itself triggers a search.
     */
    method SelectResult(p: Patient)
      modifies this
      ensures selectedPatient == (if p.name == old(searchQuery) || SearchIssued(isNewPatient, p.name) then Some(p) else None)
      ensures searchQuery == p.name && isNewPatient == old(isNewPatient) && form == old(form)
      ensures searchResults == []
      ensures isSearching == (old(isSearching) || (p.name != old(searchQuery) && SearchIssued(isNewPatient, p.name)))
    {
      var previous := searchQuery;
      HandlePatientSelect(p);
      if searchQuery != previous {
        var issued := SearchEffect();
      }
    }
  }

  /**
   * A patient picked from the results of a search survives the re-render:
   * in existing-patient mode its name triggers a search, so the selection
   * is kept and a submission goes to that patient.
   */
  lemma PickedResultStaysSelected(patients: seq<Patient>, query: string, p: Patient, form: FormData)
    requires SearchIssued(false, query) && p in SearchPatients(patients, query)
    ensures SearchIssued(false, p.name)
    ensures Submission(false, form, Some(p)).Some? && Submission(false, form, Some(p)).value.patientId == Some(p.id)
  {
    SearchResultNameSearches(patients, query, p);
  }
}
