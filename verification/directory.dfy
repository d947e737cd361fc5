/** The directory view's state and one transition per event handler of the
    component: load, field edit, add, delete, begin edit, update, the
    add/update dispatch of the submit button, and typing in the search box. */
module Directory {
  import opened Optional
  import opened Seqs
  import opened Users
  import opened RecordStore
  import opened Search

  /** The text of the blocking notification a rejected add raises. */
  const RequiredAlert: string := "Name and Email are required"

  /** The component state: the store (`data`), the form (`newUser`), the
      edit target (`editingId`) and the search box (`search`). */
  datatype State = State(store: seq<User>, draft: User, editingId: Option<Id>, search: string)

  /** The outcome of a submit: the next state, and the notification raised,
      if any. */
  datatype Step = Step(state: State, alert: Option<string>)

  /** The state invariant: every stored record has an id, no id is stored
      twice, and while an edit is open the draft carries the edited id. */
  predicate WellFormed(s: State) {
    && Identified(s.store)
    && UniqueIds(s.store)
    && (s.editingId.Some? ==> s.draft.id == s.editingId)
  }

  /** The state the component mounts with, the date default taken on `today`. */
  function Initial(today: string): (s: State)
    ensures WellFormed(s)
    ensures s.store == [] && s.editingId == None && s.search == ""
    ensures forall f :: Get(s.draft, f) == ""
    ensures s.draft.isActive && s.draft.registeredAt == today
  {
    State([], EmptyDraft(today), None, "")
  }

  /** The settled initial fetch: a response replaces the store wholesale; a
      failure leaves the state as it was. */
  function Load(s: State, response: Option<seq<User>>): (r: State)
    ensures response.Some? ==> r.store == response.value
    ensures response.None? ==> r == s
    ensures r.draft == s.draft && r.editingId == s.editingId && r.search == s.search
  {
    match response
    case Some(records) => s.(store := records)
    case None => s
  }

  /** `handleChange`: one form field of the draft takes the typed value;
      nothing else changes. */
  function Change(s: State, f: Field, v: string): (r: State)
    ensures Get(r.draft, f) == v
    ensures forall g :: g != f ==> Get(r.draft, g) == Get(s.draft, g)
    ensures r.draft.id == s.draft.id
    ensures r.draft.isActive == s.draft.isActive && r.draft.registeredAt == s.draft.registeredAt
    ensures r.store == s.store && r.editingId == s.editingId && r.search == s.search
  {
    s.(draft := Set(s.draft, f, v))
  }

  /** `handleAddUser`, with `freshId` standing for `Date.now()` and `today`
      for the reset form's date. A draft without name or email is refused
      with the notification and no state change; otherwise the draft, given
      the fresh id, goes to the head of the store and the form is reset. */
  function AddUser(s: State, freshId: Id, today: string): (r: Step)
    ensures r.alert.Some? <==> s.draft.name == "" || s.draft.email == ""
    ensures r.alert.Some? ==> r.alert == Some(RequiredAlert) && r.state == s
    ensures r.alert.None? ==>
      && |r.state.store| == |s.store| + 1
      && r.state.store[0].id == Some(freshId)
      && (forall f :: Get(r.state.store[0], f) == Get(s.draft, f))
      && r.state.store[0].isActive == s.draft.isActive
      && r.state.store[0].registeredAt == s.draft.registeredAt
      && r.state.store[1..] == s.store
    ensures r.alert.None? ==> r.state.draft == EmptyDraft(today)
    ensures r.state.editingId == s.editingId && r.state.search == s.search
  {
    if s.draft.name == "" || s.draft.email == "" then
      Step(s, Some(RequiredAlert))
    else
      var added := s.draft.(id := Some(freshId));
      Step(s.(store := [added] + s.store, draft := EmptyDraft(today)), None)
  }

  /** `handleDelete`: every record carrying `id` leaves the store, the rest
      keep their order; the form and the search box are untouched. */
  function Delete(s: State, id: Id): (r: State)
    ensures !Stored(r.store, id)
    ensures forall u :: u in r.store <==> u in s.store && u.id != Some(id)
    ensures forall u: User :: u.id != Some(id) ==> multiset(r.store)[u] == multiset(s.store)[u]
    ensures IsSubsequence(r.store, s.store)
    ensures r.draft == s.draft && r.editingId == s.editingId && r.search == s.search
  {
    s.(store := RemoveById(s.store, id))
  }

  /** `handleEdit`: the clicked record is copied into the form and its id
      becomes the edit target. */
  function BeginEdit(s: State, u: User): (r: State)
    ensures r.draft == u && r.editingId == u.id
    ensures r.store == s.store && r.search == s.search
    ensures u.id.Some? ==> r.editingId.Some?
  {
    s.(draft := u, editingId := u.id)
  }

  /** `handleUpdateUser`: every record carrying the edit target's id is
      replaced by the draft, in place, with no name/email check; the edit
      target is cleared and the form reset. */
  function UpdateUser(s: State, today: string): (r: State)
    ensures |r.store| == |s.store|
    ensures forall i :: 0 <= i < |s.store| && s.editingId.Some? && s.store[i].id == s.editingId ==>
      r.store[i] == s.draft
    ensures forall i :: 0 <= i < |s.store| && (s.editingId.None? || s.store[i].id != s.editingId) ==>
      r.store[i] == s.store[i]
    ensures r.editingId == None && r.draft == EmptyDraft(today) && r.search == s.search
  {
    var store := match s.editingId
      case Some(target) => ReplaceById(s.store, target, s.draft)
      case None => s.store;
    s.(store := store, draft := EmptyDraft(today), editingId := None)
  }

  /** The submit button: updates while an edit target is set, adds
      otherwise. Only an add can be refused; every accepted submit leaves an
      empty form and no edit target behind. */
  function Commit(s: State, freshId: Id, today: string): (r: Step)
    ensures s.editingId.Some? ==> r.alert == None && |r.state.store| == |s.store|
    ensures s.editingId.Some? ==> forall i :: 0 <= i < |s.store| ==>
      r.state.store[i] == if s.store[i].id == s.editingId then s.draft else s.store[i]
    ensures s.editingId.None? ==>
      (r.alert.Some? <==> s.draft.name == "" || s.draft.email == "")
    ensures r.alert.Some? ==> r.state == s
    ensures r.alert.None? ==> r.state.draft == EmptyDraft(today) && r.state.editingId == None
    ensures r.alert.None? && s.editingId.None? ==> r.state.store == [s.draft.(id := Some(freshId))] + s.store
    ensures r.state.search == s.search
  {
    if s.editingId.Some? then Step(UpdateUser(s, today), None) else AddUser(s, freshId, today)
  }

  /** Typing in the search box changes only the query. */
  function SetSearch(s: State, query: string): (r: State)
    ensures r.search == query
    ensures r.store == s.store && r.draft == s.draft && r.editingId == s.editingId
  {
    s.(search := query)
  }

  /** The table's rows for the current state. */
  function View(s: State): (rows: seq<User>)
    ensures IsSubsequence(rows, s.store)
    ensures forall u :: u in rows <==> u in s.store && Matches(u, s.search)
    ensures forall u: User :: multiset(rows)[u] == if Matches(u, s.search) then multiset(s.store)[u] else 0
  {
    Filtered(s.store, s.search)
  }

  /** The events the component reacts to. */
  datatype Event =
    | Loaded(response: Option<seq<User>>)
    | FieldChanged(field: Field, value: string)
    | Submitted(freshId: Id, today: string)
    | DeleteClicked(id: Id)
    | EditClicked(user: User)
    | SearchTyped(query: string)

  /** The state after one event. */
  function Apply(s: State, e: Event): State {
    match e
    case Loaded(response) => Load(s, response)
    case FieldChanged(f, v) => Change(s, f, v)
    case Submitted(freshId, today) => Commit(s, freshId, today).state
    case DeleteClicked(id) => Delete(s, id)
    case EditClicked(u) => BeginEdit(s, u)
    case SearchTyped(q) => SetSearch(s, q)
  }

  /** What the environment must guarantee for an event: the clock yields an
      id not yet stored, and a loaded list has present, unique ids. */
  predicate Admissible(s: State, e: Event) {
    match e
    case Submitted(freshId, _) => !Stored(s.store, freshId)
    case Loaded(Some(records)) => Identified(records) && UniqueIds(records)
    case _ => true
  }

  /** The state after a sequence of events, in order. */
  function Run(s: State, es: seq<Event>): State
    decreases |es|
  {
    if es == [] then s else Run(Apply(s, es[0]), es[1..])
  }

  /** Every event of the sequence is admissible in the state it meets. */
  predicate AdmissibleRun(s: State, es: seq<Event>)
    decreases |es|
  {
    es == [] || (Admissible(s, es[0]) && AdmissibleRun(Apply(s, es[0]), es[1..]))
  }

  /** A successful add with a fresh id keeps ids present and unique. */
  lemma AddPreservesWellFormed(s: State, freshId: Id, today: string)
    requires WellFormed(s) && s.editingId.None?
    requires !Stored(s.store, freshId)
    ensures WellFormed(AddUser(s, freshId, today).state)
  {
  }

  /** An update keeps ids present and unique: the draft carries the edited
      id, so the id at every position stays as it was. */
  lemma UpdatePreservesWellFormed(s: State, today: string)
    requires WellFormed(s)
    ensures WellFormed(UpdateUser(s, today))
  {
  }

  /** Every admissible event keeps the invariant. */
  lemma ApplyPreservesWellFormed(s: State, e: Event)
    requires WellFormed(s) && Admissible(s, e)
    ensures WellFormed(Apply(s, e))
  {
    match e
    case Submitted(freshId, today) =>
      if s.editingId.Some? {
        UpdatePreservesWellFormed(s, today);
      } else {
        AddPreservesWellFormed(s, freshId, today);
      }
    case DeleteClicked(id) =>
      RemovePreservesIds(s.store, id);
    case _ =>
  }

  /** Ids stay present and pairwise distinct along any admissible sequence
      of events. */
  lemma {:induction false} RunPreservesWellFormed(s: State, es: seq<Event>)
    requires WellFormed(s) && AdmissibleRun(s, es)
    ensures WellFormed(Run(s, es))
    decreases |es|
  {
    if es != [] {
      ApplyPreservesWellFormed(s, es[0]);
      RunPreservesWellFormed(Apply(s, es[0]), es[1..]);
    }
  }

  /** Adding and then deleting by the fresh id gives back the store. */
  lemma AddThenDelete(s: State, freshId: Id, today: string)
    requires s.draft.name != "" && s.draft.email != ""
    requires !Stored(s.store, freshId)
    ensures Delete(AddUser(s, freshId, today).state, freshId).store == s.store
  {
    RemoveAfterPrepend(s.store, s.draft.(id := Some(freshId)), freshId);
  }

  /** Deleting an id no record carries is a silent no-op. */
  lemma DeleteUnknownId(s: State, id: Id)
    requires !Stored(s.store, id)
    ensures Delete(s, id) == s
  {
    RemoveAbsent(s.store, id);
  }

  /** Updating while the edit target is no longer stored (its record was
      deleted meanwhile) leaves the store as it was. */
  lemma UpdateUnknownTarget(s: State, today: string)
    requires s.editingId.Some? && !Stored(s.store, s.editingId.value)
    ensures UpdateUser(s, today).store == s.store
  {
  }

  /** With unique ids, deleting a stored id shortens the store by one. */
  lemma DeleteStoredDropsOne(s: State, id: Id)
    requires WellFormed(s) && Stored(s.store, id)
    ensures |Delete(s, id).store| == |s.store| - 1
  {
    RemoveStoredDropsOne(s.store, id);
  }

  /** Opening a stored record and submitting it unchanged leaves the store
      as it was. */
  lemma EditCommitUnchanged(s: State, k: int, freshId: Id, today: string)
    requires WellFormed(s) && 0 <= k < |s.store|
    ensures Commit(BeginEdit(s, s.store[k]), freshId, today).state.store == s.store
  {
  }

  /** Opening a stored record, editing one field and submitting replaces
      that record in place by the edited copy, with the same id, and leaves
      every other record, the length and the order as they were. */
  lemma EditChangeCommit(s: State, k: int, f: Field, v: string, freshId: Id, today: string)
    requires WellFormed(s) && 0 <= k < |s.store|
    ensures var r := Commit(Change(BeginEdit(s, s.store[k]), f, v), freshId, today);
      && r.alert == None
      && |r.state.store| == |s.store|
      && r.state.store[k] == Set(s.store[k], f, v)
      && r.state.store[k].id == s.store[k].id
      && (forall i :: 0 <= i < |s.store| && i != k ==> r.state.store[i] == s.store[i])
      && r.state.draft == EmptyDraft(today) && r.state.editingId == None
  {
  }

  /** Unlike an add, an update stores a record with an empty name: the
      submit path for edits performs no name/email check. */
  lemma UpdateStoresBlankName(s: State, k: int, freshId: Id, today: string)
    requires WellFormed(s) && 0 <= k < |s.store|
    ensures var r := Commit(Change(BeginEdit(s, s.store[k]), Name, ""), freshId, today);
      r.alert == None && r.state.store[k].name == ""
  {
  }
}
