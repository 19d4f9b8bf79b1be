/**
 * The App component's state slots and handlers: the record cache, the edit
 * form, the view switch and the filter row, with the requests the handlers
 * issue recorded in order and applied to the remote collection.
 */
module TrainingApp {
  import opened JsString
  import opened Training
  import opened TrainingFilter
  import opened RecordStore

  /** JavaScript truthiness of editId: null, undefined and "" are all falsy. */
  predicate IsTruthy(editId: Option<string>) {
    editId.Some? && editId.value != ""
  }

  /** The write handleSubmit issues for a form: a PUT to a truthy editId, a POST otherwise. */
  function WriteRequest(form: Training, editId: Option<string>): (r: Request)
    ensures r.Put? <==> IsTruthy(editId)
    ensures r.Put? || r.Post?
    ensures r.body == form
    ensures r.Put? ==> r.id == editId.value
  {
    if IsTruthy(editId) then Put(editId.value, form) else Post(form)
  }

  /**
   * The requests handleSubmit issues, in order: none when the trainer name is
   * blank; otherwise the write and then the refetch.
   */
  function SubmitRequests(form: Training, editId: Option<string>): (rs: seq<Request>)
    ensures rs == [] <==> IsBlank(form.trainerName)
    ensures rs != [] ==> rs == [WriteRequest(form, editId), GetAll]
  {
    if IsBlank(form.trainerName) then [] else [WriteRequest(form, editId), GetAll]
  }

  /** The effect of one write request on the remote collection. */
  function Apply(s: seq<Training>, r: Request, freshId: string): (a: seq<Training>)
    ensures r.GetAll? ==> a == s
    ensures r.Post? ==> |a| == |s| + 1 && a[..|s|] == s && a[|s|].id == Some(freshId)
    ensures r.Put? ==> |a| == |s|
    ensures r.Delete? ==> |a| <= |s|
  {
    match r
    case GetAll => s
    case Post(body) => Created(s, body, freshId)
    case Put(id, body) => Updated(s, id, body)
    case Delete(id) => Deleted(s, id)
  }

  /** Every request keeps the store's ids unique, provided a create gets an id not yet stored. */
  lemma ApplyKeepsIdsUnique(s: seq<Training>, r: Request, freshId: string)
    requires UniqueIds(s)
    requires r.Post? ==> Lookup(s, freshId).None?
    ensures UniqueIds(Apply(s, r, freshId))
  {
    match r {
      case GetAll =>
      case Post(body) => CreateKeepsIdsUnique(s, body, freshId);
      case Put(id, body) => UpdateKeepsIdsUnique(s, id, body);
      case Delete(id) => DeleteLookup(s, id);
    }
  }

  /** A form opened by handleOpen() is never sent as it is: its trainer name is blank. */
  lemma BlankTemplateNotSent(nowIso: string, projectNames: seq<string>, editId: Option<string>)
    requires |projectNames| > 0
    ensures SubmitRequests(BlankTemplate(nowIso, projectNames), editId) == []
  {
    BlankTemplateFacts(nowIso, projectNames);
  }

  /** Whatever the form holds, a session opened by handleOpen() (editId null) submits by POST. */
  lemma CreateSessionPosts(form: Training)
    requires !IsBlank(form.trainerName)
    ensures SubmitRequests(form, None) == [Post(form), GetAll]
  {
  }

  /** A session opened on a fetched record with a non-empty id submits by PUT to that id. */
  lemma EditSessionPutsToRecord(t: Training, form: Training)
    requires t.id.Some? && t.id.value != ""
    requires !IsBlank(form.trainerName)
    ensures SubmitRequests(form, EditTemplate(t).id) == [Put(t.id.value, form), GetAll]
  {
  }

  /** An empty-string id is falsy, so such a session submits by POST. */
  lemma EmptyIdPosts(form: Training)
    requires !IsBlank(form.trainerName)
    ensures SubmitRequests(form, Some("")) == [Post(form), GetAll]
  {
  }

  class App {
    /** The cached record list, replaced wholesale by every fetch. */
    var trainings: seq<Training>
    var form: Training
    var editId: Option<string>
    var showTable: bool
    var showForm: bool
    var filters: Filters
    /** The remote collection the requests act on. */
    var store: seq<Training>
    /** Every request issued so far, oldest first. */
    var requests: seq<Request>
    /** The project names the form offers; the first is the blank template's. */
    const projectNameOptions: seq<string>

    /**
     * The form carries the id being edited, exactly one of the form and the
     * table is shown, and the store's ids are unique.
     */
    ghost predicate Valid()
      reads this
    {
      && |projectNameOptions| > 0
      && form.id == editId
      && showForm == !showTable
      && UniqueIds(store)
    }

    /** The rows the table shows: the cached records the filter row accepts, in their order. */
    function Rows(): (r: seq<Training>)
      reads this
      ensures |r| <= |trainings|
      ensures forall t :: t in r <==> t in trainings && TrainingFilter.Visible(t, filters)
    {
      FilteredIffVisible(trainings, filters);
      FilteredTrainings(trainings, filters)
    }

    /** The component's initial state; nowIso stands for the current time's ISO text. */
    constructor (nowIso: string, projectNameOptions: seq<string>, store: seq<Training>)
      requires |projectNameOptions| > 0 && UniqueIds(store)
      ensures Valid()
      ensures this.projectNameOptions == projectNameOptions
      ensures trainings == [] && form == BlankTemplate(nowIso, projectNameOptions) && editId == None
      ensures showTable && !showForm && filters == NoFilters
      ensures this.store == store && requests == []
    {
      this.projectNameOptions := projectNameOptions;
      trainings := [];
      form := BlankTemplate(nowIso, projectNameOptions);
      editId := None;
      showTable := true;
      showForm := false;
      filters := NoFilters;
      this.store := store;
      requests := [];
    }

    /** An awaited axios write: the request is logged and applied to the remote collection. */
    method Send(r: Request, freshId: string)
      requires Valid()
      requires r.Post? ==> Lookup(store, freshId).None?
      modifies this`requests, this`store
      ensures Valid()
      ensures requests == old(requests) + [r]
      ensures store == Apply(old(store), r, freshId)
    {
      requests := requests + [r];
      ApplyKeepsIdsUnique(store, r, freshId);
      store := Apply(store, r, freshId);
    }

    /** fetchTrainings: GET the collection and replace the cached list with it. */
    method FetchTrainings()
      requires Valid()
      modifies this`trainings, this`requests
      ensures Valid()
      ensures requests == old(requests) + [GetAll]
      ensures trainings == store
    {
      requests := requests + [GetAll];
      trainings := store;
    }

    /** handleOpen: load the edit template of a record, or the blank template, and show the form. */
    method HandleOpen(training: Option<Training>, nowIso: string)
      requires Valid()
      modifies this`form, this`editId, this`showForm, this`showTable
      ensures Valid()
      ensures training.Some? ==> form == EditTemplate(training.value) && editId == training.value.id
      ensures training.None? ==> form == BlankTemplate(nowIso, projectNameOptions) && editId == None
      ensures showForm && !showTable
    {
      if training.Some? {
        form := EditTemplate(training.value);
        editId := training.value.id;
      } else {
        form := BlankTemplate(nowIso, projectNameOptions);
        editId := None;
      }
      showForm := true;
      showTable := false;
    }

    /** handleClose: back to the table; the form and editId are kept. */
    method HandleClose()
      requires Valid()
      modifies this`showForm, this`showTable
      ensures Valid()
      ensures !showForm && showTable
    {
      showForm := false;
      showTable := true;
    }

    /** handleChange: only the named field changes, to the value (trimmed for projectName). */
    method HandleChange(name: Field, value: string)
      requires Valid()
      modifies this`form
      ensures Valid()
      ensures form == SetField(old(form), name, ChangedValue(name, value))
    {
      form := SetField(form, name, ChangedValue(name, value));
    }

    /**
     * handleSubmit. A blank trainer name alerts and returns before any
     * request, changing nothing. Otherwise it writes (PUT to a truthy editId,
     * POST otherwise; freshId is the id the store gives a created record),
     * then refetches and shows the table.
     */
    method HandleSubmit(freshId: string) returns (alerted: bool)
      requires Valid()
      requires Lookup(store, freshId).None?
      modifies this`trainings, this`requests, this`store, this`showForm, this`showTable
      ensures Valid()
      ensures alerted <==> IsBlank(form.trainerName)
      ensures requests == old(requests) + SubmitRequests(form, editId)
      ensures alerted ==> store == old(store) && trainings == old(trainings)
      ensures alerted ==> showForm == old(showForm) && showTable == old(showTable)
      ensures !alerted ==> store == Apply(old(store), SubmitRequests(form, editId)[0], freshId)
      ensures !alerted ==> trainings == store && !showForm && showTable
    {
      if IsBlank(form.trainerName) {
        alerted := true;
        assert requests == old(requests) + [];
        return;
      }
      alerted := false;
      var r := WriteRequest(form, editId);
      assert SubmitRequests(form, editId) == [r, GetAll];
      Send(r, freshId);
      assert requests == old(requests) + [r];
      FetchTrainings();
      assert requests == old(requests) + [r] + [GetAll];
      assert [r] + [GetAll] == [r, GetAll];
      HandleClose();
      assert form == old(form) && editId == old(editId);
    }

    /** handleDelete: DELETE the id, then refetch; the form and the view are untouched. */
    method HandleDelete(id: string)
      requires Valid()
      modifies this`trainings, this`requests, this`store
      ensures Valid()
      ensures requests == old(requests) + [Delete(id), GetAll]
      ensures store == Deleted(old(store), id) && trainings == store
    {
      Send(Delete(id), "");
      FetchTrainings();
    }

    /** A filter cell's change handler: field k of the filter row takes the typed value. */
    method SetFilter(k: Field, v: string)
      requires Valid()
      modifies this`filters
      ensures Valid()
      ensures filters == WithFilter(old(filters), k, v)
    {
      filters := WithFilter(filters, k, v);
    }
  }

  /** A whitespace-only trainer name is refused locally: no request, the form stays open. */
  method BlankTrainerSession(nowIso: string)
  {
    var app := new App(nowIso, ["ABC", "CDE", "EFG", "HIJ", "KLM"], []);
    app.HandleOpen(None, nowIso);
    app.HandleChange(TrainerName, "   ");
    assert IsBlank("   ");
    var alerted := app.HandleSubmit("a1");
    assert alerted && app.requests == [] && app.showForm && !app.showTable;
  }

  /**
   * Creating a record from the blank template with the three required text
   * fields filled in, then fetching, lists exactly that record under its new id.
   */
  method CreateSession(nowIso: string, employee: string, course: string, trainer: string)
    requires !IsBlank(employee) && !IsBlank(course) && !IsBlank(trainer)
  {
    var app := new App(nowIso, ["ABC", "CDE", "EFG", "HIJ", "KLM"], []);
    app.HandleOpen(None, nowIso);
    app.HandleChange(EmployeeName, employee);
    app.HandleChange(Course, course);
    app.HandleChange(TrainerName, trainer);
    assert app.form.trainerName == trainer && app.editId == None;
    var alerted := app.HandleSubmit("a1");
    assert !alerted && app.showTable;
    assert |app.trainings| == 1 && app.trainings[0].id == Some("a1");
    assert app.trainings[0].employeeName == employee && app.trainings[0].course == course;
    assert app.trainings[0].trainerName == trainer && app.trainings[0].projectName == "ABC";
  }

  /** Deleting the only stored record, then fetching, leaves the table empty. */
  method DeleteSession(nowIso: string, t: Training)
    requires t.id == Some("a1")
  {
    var app := new App(nowIso, ["ABC", "CDE", "EFG", "HIJ", "KLM"], [t]);
    app.HandleDelete("a1");
    assert Deleted([t], "a1") == [];
    assert app.trainings == [] && app.showTable && app.Rows() == [];
  }
}
