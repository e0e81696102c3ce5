/** The read path: the form getters of `FormsService` and `GET /api/forms`,
    as functions over a snapshot of the tables. Which queries fail is a
    parameter; a list read maps its child queries over the forms one by one. */
module ReadPath {
  import opened Js
  import opened Query
  import opened Store

  /** Which queries fail: the forms query, and the step and field queries
      of the forms whose ids are listed. */
  datatype ReadFaults = ReadFaults(formsQuery: bool, stepQueries: set<Id>, fieldQueries: set<Id>)

  datatype ListResult = Listed(docs: seq<FormDoc>) | Thrown(message: string)

  datatype GetOutcome = FormList(forms: seq<FormDoc>) | GetFailed(status: int, error: string)

  function StepOrderKey(s: StepRow): Key { At(s.orderIndex) }
  function FieldOrderKey(f: FieldRow): Key { At(f.orderIndex) }

  /** `.eq('company_id', company).eq('is_active', true)`. */
  function ActiveOf(company: string): FormRow -> bool
  {
    (f: FormRow) => f.companyId == company && f.isActive
  }

  function IsActive(f: FormRow): bool { f.isActive }

  /** The forms a list query returns, by ascending order_index. */
  function FormsQuery(forms: seq<FormRow>, keep: FormRow -> bool): (r: seq<FormRow>)
    ensures SortedBy(r, FormOrderKey)
  {
    SortBy(Filter(forms, keep), FormOrderKey)
  }

  /** A form with its children: its steps by order_index only when it is
      multi-step and the step query succeeds, otherwise none; its fields by
      order_index, or none when that query fails (in the getters that
      tolerate the failure). */
  function WithChildren(db: Db, form: FormRow, faults: ReadFaults): (d: FormDoc)
    ensures d.form == form
    ensures SortedBy(d.steps, StepOrderKey) && SortedBy(d.fields, FieldOrderKey)
    ensures form.formType != "multi-step" || form.id in faults.stepQueries ==> d.steps == []
    ensures form.id in faults.fieldQueries ==> d.fields == []
  {
    var steps := if form.formType == "multi-step" && form.id !in faults.stepQueries
                 then SortBy(StepsOfForm(db.steps, form.id), StepOrderKey) else [];
    var fields := if form.id in faults.fieldQueries then [] else SortBy(FieldsOfForm(db.fields, form.id), FieldOrderKey);
    FormDoc(form, fields, steps)
  }

  function AttachAll(db: Db, forms: seq<FormRow>, faults: ReadFaults): (r: seq<FormDoc>)
    ensures |r| == |forms|
    ensures forall i :: 0 <= i < |forms| ==> r[i] == WithChildren(db, forms[i], faults)
  {
    seq(|forms|, i requires 0 <= i < |forms| => WithChildren(db, forms[i], faults))
  }

  /** `FormsService.getForms`: the company's active forms. */
  function GetForms(configured: bool, db: Db, companyId: string, faults: ReadFaults): ListResult
  {
    if !configured then Listed([])
    else if faults.formsQuery then Thrown("Failed to fetch forms")
    else Listed(AttachAll(db, FormsQuery(db.forms, ActiveOf(companyId)), faults))
  }

  /** `FormsService.getFormsForAdmin`: the company's forms, inactive ones included. */
  function GetFormsForAdmin(configured: bool, db: Db, companyId: string, faults: ReadFaults): ListResult
  {
    if !configured then Listed([])
    else if faults.formsQuery then Thrown("Failed to fetch forms")
    else Listed(AttachAll(db, FormsQuery(db.forms, FormIsOf(companyId)), faults))
  }

  /** `.single()`: the one row, or an error for none or several. */
  function Single(rows: seq<FormRow>): (r: Option<FormRow>)
    ensures r.Some? <==> |rows| == 1
  {
    if |rows| == 1 then Some(rows[0]) else None
  }

  function FormIdIs(id: Id): FormRow -> bool
  {
    (f: FormRow) => f.id == id
  }

  /** `FormsService.getForm`: null when unconfigured, when the lookup does
      not find exactly one form or fails, or when the field query fails. */
  function GetForm(configured: bool, db: Db, formId: Id, lookupFails: bool, faults: ReadFaults): Option<FormDoc>
  {
    if !configured then None
    else
      var form := Single(Filter(db.forms, FormIdIs(formId)));
      if lookupFails || form.None? || formId in faults.fieldQueries then None
      else Some(WithChildren(db, form.value, faults))
  }

  /** `GET /api/forms?company_id=…`. */
  function Get(db: Db, companyId: Option<string>, faults: ReadFaults): GetOutcome
  {
    if !Truthy(companyId) then GetFailed(400, "Company ID is required")
    else if faults.formsQuery then GetFailed(500, "Failed to fetch forms")
    else FormList(AttachAll(db, FormsQuery(db.forms, ActiveOf(companyId.value)), faults))
  }

  // ---------------------------------------------------------------------
  // Properties

  /** A list query returns exactly the rows that pass its filter. */
  lemma FormsQueryMembers(forms: seq<FormRow>, keep: FormRow -> bool)
    ensures forall f :: f in FormsQuery(forms, keep) <==> f in forms && keep(f)
  {
    SortByMembers(Filter(forms, keep), FormOrderKey);
    forall f | f in forms && keep(f)
      ensures f in Filter(forms, keep)
    {
      var i :| 0 <= i < |forms| && forms[i] == f;
    }
  }

  /** The active list holds exactly the company's active forms, in
      ascending order_index with unset ones last. */
  lemma ActiveListIsExactlyTheActiveForms(db: Db, companyId: string, faults: ReadFaults)
    requires !faults.formsQuery
    ensures var r := GetForms(true, db, companyId, faults);
      && r.Listed?
      && (forall d :: d in r.docs ==> d.form in db.forms && d.form.companyId == companyId && d.form.isActive)
      && (forall f :: f in db.forms && f.companyId == companyId && f.isActive ==> exists d :: d in r.docs && d.form == f)
      && (forall i, j :: 0 <= i < j < |r.docs| ==> KeyLe(FormOrderKey(r.docs[i].form), FormOrderKey(r.docs[j].form)))
  {
    var rows := FormsQuery(db.forms, ActiveOf(companyId));
    var docs := AttachAll(db, rows, faults);
    FormsQueryMembers(db.forms, ActiveOf(companyId));
    forall d | d in docs
      ensures d.form in rows
    {
      var i :| 0 <= i < |docs| && docs[i] == d;
    }
    forall f | f in rows
      ensures exists d :: d in docs && d.form == f
    {
      var i :| 0 <= i < |rows| && rows[i] == f;
      assert docs[i].form == f;
    }
  }

  /** The admin list differs from the active list only by the inactive
      forms: keeping its active entries gives the active list. */
  lemma AdminListRestrictsToActiveList(db: Db, companyId: string, faults: ReadFaults)
    requires !faults.formsQuery
    ensures Filter(FormsQuery(db.forms, FormIsOf(companyId)), IsActive) == FormsQuery(db.forms, ActiveOf(companyId))
  {
    FilterSortCommute(Filter(db.forms, FormIsOf(companyId)), FormOrderKey, IsActive);
    FilterFilter(db.forms, FormIsOf(companyId), IsActive, ActiveOf(companyId));
  }

  /** A form's attached steps are exactly its rows in `form_steps` when it
      is multi-step and the query succeeds; its fields are exactly its rows
      in `form_fields` when that query succeeds. */
  lemma ChildrenAreTheFormsRows(db: Db, form: FormRow, faults: ReadFaults)
    ensures var d := WithChildren(db, form, faults);
      && (form.formType == "multi-step" && form.id !in faults.stepQueries ==>
            forall s :: s in d.steps <==> s in db.steps && s.formId == form.id)
      && (form.id !in faults.fieldQueries ==>
            forall f :: f in d.fields <==> f in db.fields && f.formId == form.id)
  {
    SortByMembers(StepsOfForm(db.steps, form.id), StepOrderKey);
    SortByMembers(FieldsOfForm(db.fields, form.id), FieldOrderKey);
    forall s | s in db.steps && s.formId == form.id
      ensures s in StepsOfForm(db.steps, form.id)
    {
      var i :| 0 <= i < |db.steps| && db.steps[i] == s;
    }
    forall f | f in db.fields && f.formId == form.id
      ensures f in FieldsOfForm(db.fields, form.id)
    {
      var i :| 0 <= i < |db.fields| && db.fields[i] == f;
    }
  }

  /** Every form of a list comes with its own children: the list keeps the
      forms in order, and each gets exactly its rows of each table (steps
      only for a multi-step form), unless that query failed. */
  lemma AttachAllChildren(db: Db, forms: seq<FormRow>, faults: ReadFaults)
    ensures var r := AttachAll(db, forms, faults);
      && |r| == |forms|
      && (forall i :: 0 <= i < |r| ==> r[i].form == forms[i])
      && (forall i, s :: 0 <= i < |r| && forms[i].formType == "multi-step" && forms[i].id !in faults.stepQueries ==>
            (s in r[i].steps <==> s in db.steps && s.formId == forms[i].id))
      && (forall i :: 0 <= i < |r| && (forms[i].formType != "multi-step" || forms[i].id in faults.stepQueries) ==> r[i].steps == [])
      && (forall i, f :: 0 <= i < |r| && forms[i].id !in faults.fieldQueries ==>
            (f in r[i].fields <==> f in db.fields && f.formId == forms[i].id))
  {
    var r := AttachAll(db, forms, faults);
    forall i | 0 <= i < |r| ensures var d := r[i];
      && (forms[i].formType == "multi-step" && forms[i].id !in faults.stepQueries ==>
            forall s :: s in d.steps <==> s in db.steps && s.formId == forms[i].id)
      && (forms[i].id !in faults.fieldQueries ==>
            forall f :: f in d.fields <==> f in db.fields && f.formId == forms[i].id)
    {
      ChildrenAreTheFormsRows(db, forms[i], faults);
    }
  }

  /** `getForm` finds a form exactly when one row has the id and neither
      the lookup nor the field query fails; it then returns that row. */
  lemma GetFormFindsTheUniqueRow(db: Db, formId: Id, lookupFails: bool, faults: ReadFaults)
    ensures var r := GetForm(true, db, formId, lookupFails, faults);
      && (r.Some? <==> !lookupFails && |Filter(db.forms, FormIdIs(formId))| == 1 && formId !in faults.fieldQueries)
      && (r.Some? ==> r.value.form in db.forms && r.value.form.id == formId)
  {
  }

  /** The route answers with the service's active list once it has a company. */
  lemma RouteListsWhatTheServiceLists(db: Db, companyId: Option<string>, faults: ReadFaults)
    ensures !Truthy(companyId) ==> Get(db, companyId, faults) == GetFailed(400, "Company ID is required")
    ensures Truthy(companyId) && !faults.formsQuery ==>
      Get(db, companyId, faults) == FormList(GetForms(true, db, companyId.value, faults).docs)
    ensures Truthy(companyId) && faults.formsQuery ==> GetForms(true, db, companyId.value, faults).Thrown?
    ensures Truthy(companyId) && faults.formsQuery ==> Get(db, companyId, faults) == GetFailed(500, "Failed to fetch forms")
  {
  }

  /** Unconfigured, the getters return nothing and never fail. */
  lemma UnconfiguredReadsNothing(db: Db, companyId: string, formId: Id, lookupFails: bool, faults: ReadFaults)
    ensures GetForms(false, db, companyId, faults) == Listed([])
    ensures GetFormsForAdmin(false, db, companyId, faults) == Listed([])
    ensures GetForm(false, db, formId, lookupFails, faults) == None
  {
  }
}
