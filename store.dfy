/** The persistence collaborator: the five tables the forms application
    writes (`forms`, `form_steps`, `form_fields`, `form_responses`,
    `form_response_data`) as sequences of rows in insertion order, and a
    store object whose insert and update calls change them one call at a
    time. Whether a call fails (a constraint violation, the network) is not
    decided here: every mutating call takes a `fail` flag chosen by the
    caller's environment, and a failed call changes nothing. */
module Store {
  import opened Js
  import opened Query

  /** A durable row id. */
  type Id = string

  /** The id the store hands out n-th. Distinct n give ids of distinct
      lengths, so ids handed out by one store never repeat. */
  function IdOf(n: nat): (id: Id)
    ensures |id| == n + 1
  {
    "r" + seq(n, _ => '0')
  }

  type Settings = map<string, string>

  datatype FormRow = FormRow(
    id: Id,
    title: string,
    description: Option<string>,
    companyId: string,
    createdBy: string,
    formType: string,
    settings: Settings,
    useDefaultColors: Option<bool>,
    isActive: bool,
    orderIndex: Option<int>,
    createdAt: int,
    updatedAt: int)

  datatype StepRow = StepRow(
    id: Id,
    formId: Id,
    title: string,
    description: Option<string>,
    orderIndex: int)

  datatype FieldRow = FieldRow(
    id: Id,
    formId: Id,
    fieldType: string,
    fieldLabel: Option<string>,
    placeholder: Option<string>,
    content: Option<string>,
    required: bool,
    options: seq<string>,
    orderIndex: int,
    stepId: Option<Id>)

  datatype ResponseRow = ResponseRow(
    id: Id,
    formId: string,
    submittedBy: string,
    ipAddress: string,
    userAgent: string,
    submittedAt: int)

  datatype ResponseDataRow = ResponseDataRow(
    id: Id,
    responseId: Id,
    fieldId: string,
    value: string)

  /** A snapshot of the five tables. */
  datatype Db = Db(
    forms: seq<FormRow>,
    steps: seq<StepRow>,
    fields: seq<FieldRow>,
    responses: seq<ResponseRow>,
    responseData: seq<ResponseDataRow>)

  /** A form with its fields and steps attached, as the handlers return it. */
  datatype FormDoc = FormDoc(form: FormRow, fields: seq<FieldRow>, steps: seq<StepRow>)

  /** Every form id was handed out before the n-th, and so every form a
      step or field belongs to was too. (Ids of the other tables are fresh
      for the same reason; nothing below depends on it.) */
  ghost predicate IdsBelow(db: Db, n: nat)
  {
    && (forall i :: 0 <= i < |db.forms| ==> |db.forms[i].id| <= n)
    && (forall i :: 0 <= i < |db.steps| ==> |db.steps[i].formId| <= n)
    && (forall i :: 0 <= i < |db.fields| ==> |db.fields[i].formId| <= n)
  }

  /** The foreign key `form_id REFERENCES forms(id)` of steps and fields. */
  predicate HasForm(forms: seq<FormRow>, id: Id)
  {
    exists i :: 0 <= i < |forms| && forms[i].id == id
  }

  function StepIsOf(formId: Id): StepRow -> bool
  {
    (s: StepRow) => s.formId == formId
  }

  function FieldIsOf(formId: Id): FieldRow -> bool
  {
    (f: FieldRow) => f.formId == formId
  }

  /** The steps that belong to a form, in table order. */
  function StepsOfForm(steps: seq<StepRow>, formId: Id): (r: seq<StepRow>)
    ensures forall i :: 0 <= i < |r| ==> r[i].formId == formId && r[i] in steps
    ensures forall i :: 0 <= i < |steps| && steps[i].formId == formId ==> steps[i] in r
  {
    Filter(steps, StepIsOf(formId))
  }

  /** The fields that belong to a form, in table order. */
  function FieldsOfForm(fields: seq<FieldRow>, formId: Id): (r: seq<FieldRow>)
    ensures forall i :: 0 <= i < |r| ==> r[i].formId == formId && r[i] in fields
    ensures forall i :: 0 <= i < |fields| && fields[i].formId == formId ==> fields[i] in r
  {
    Filter(fields, FieldIsOf(formId))
  }

  /** `.eq('company_id', company)` on `forms`. */
  function FormIsOf(company: string): FormRow -> bool
  {
    (f: FormRow) => f.companyId == company
  }

  /** The sort key of `.order('order_index', { ascending: true })` on `forms`. */
  function FormOrderKey(f: FormRow): Key
  {
    if f.orderIndex.Some? then At(f.orderIndex.value) else Last
  }

  /** The rows of `forms` with the given id get the new order_index (and
      updated_at, when given), provided their company matches when a company
      is given; every other row is unchanged. */
  function SetFormOrder(forms: seq<FormRow>, id: Id, company: Option<string>, orderIndex: int, updatedAt: Option<int>): (r: seq<FormRow>)
    ensures |r| == |forms|
    ensures forall i :: 0 <= i < |forms| ==>
      r[i] == if forms[i].id == id && (company.None? || forms[i].companyId == company.value)
              then forms[i].(orderIndex := Some(orderIndex), updatedAt := GetOr(updatedAt, forms[i].updatedAt))
              else forms[i]
  {
    seq(|forms|, i requires 0 <= i < |forms| =>
      if forms[i].id == id && (company.None? || forms[i].companyId == company.value)
      then forms[i].(orderIndex := Some(orderIndex), updatedAt := GetOr(updatedAt, forms[i].updatedAt))
      else forms[i])
  }

  // ---------------------------------------------------------------------
  // Failures of store calls

  /** Whether the i-th call of a kind fails: entry i of the sequence
      decides it, and calls past its end succeed. */
  predicate Fails(fails: seq<bool>, i: nat)
  {
    i < |fails| && fails[i]
  }

  /** The index of the first failing call among the first n, or n when none fails. */
  function FirstFailure(fails: seq<bool>, n: nat): (k: nat)
    ensures k <= n
    ensures forall i :: 0 <= i < k ==> !Fails(fails, i)
    ensures k < n ==> Fails(fails, k)
  {
    if n == 0 then 0
    else
      var k := FirstFailure(fails, n - 1);
      if k < n - 1 then k else if Fails(fails, n - 1) then n - 1 else n
  }

  /** Whether each of the first n inserts fails: when the environment says
      so, or always when the form they belong to does not exist. */
  function Refusals(fails: seq<bool>, n: nat, formExists: bool): (r: seq<bool>)
    ensures |r| == n
  {
    seq(n, i requires 0 <= i < n => Fails(fails, i) || !formExists)
  }

  /** The first failure depends only on which of the first n calls fail. */
  lemma {:induction false} FirstFailureAgree(a: seq<bool>, b: seq<bool>, n: nat)
    requires forall i :: 0 <= i < n ==> (Fails(a, i) <==> Fails(b, i))
    ensures FirstFailure(a, n) == FirstFailure(b, n)
  {
    if n > 0 {
      FirstFailureAgree(a, b, n - 1);
    }
  }

  /** A loop that has passed count calls, none failing, may take one more
      when that call does not fail either. */
  lemma FirstFailureStep(fails: seq<bool>, n: nat, count: nat)
    requires count < n && count <= FirstFailure(fails, n) && !Fails(fails, count)
    ensures count + 1 <= FirstFailure(fails, n)
  {
  }

  class Store {
    var db: Db
    var nextId: nat

    ghost predicate Valid()
      reads this
    {
      IdsBelow(db, nextId)
    }

    constructor (db: Db, nextId: nat)
      requires IdsBelow(db, nextId)
      ensures Valid() && this.db == db && this.nextId == nextId
    {
      this.db := db;
      this.nextId := nextId;
    }

    /** `insert(row).select().single()` on `forms`. Like a database
        sequence, the store uses up the next id whether or not the insert
        succeeds. */
    method InsertForm(row: FormRow, fail: bool) returns (r: Option<FormRow>)
      requires Valid()
      modifies this
      ensures Valid() && nextId == old(nextId) + 1
      ensures r.Some? <==> !fail
      ensures r.None? ==> db == old(db)
      ensures r.Some? ==> && r.value == row.(id := IdOf(old(nextId)))
                          && db == old(db).(forms := old(db).forms + [r.value])
    {
      var id := IdOf(nextId);
      nextId := nextId + 1;
      if fail {
        return None;
      }
      var created := row.(id := id);
      db := db.(forms := db.forms + [created]);
      r := Some(created);
    }

    /** `insert(row).select().single()` on `form_steps`; a row whose form
        does not exist violates the foreign key and is refused. */
    method InsertStep(row: StepRow, fail: bool) returns (r: Option<StepRow>)
      requires Valid()
      modifies this
      ensures Valid() && nextId == old(nextId) + 1
      ensures r.Some? <==> !fail && HasForm(old(db).forms, row.formId)
      ensures r.None? ==> db == old(db)
      ensures r.Some? ==> && r.value == row.(id := IdOf(old(nextId)))
                          && db == old(db).(steps := old(db).steps + [r.value])
    {
      var id := IdOf(nextId);
      nextId := nextId + 1;
      if fail || !HasForm(db.forms, row.formId) {
        return None;
      }
      var created := row.(id := id);
      db := db.(steps := db.steps + [created]);
      r := Some(created);
    }

    /** `insert(row)` on `form_fields`, with the same foreign key. */
    method InsertField(row: FieldRow, fail: bool) returns (r: Option<FieldRow>)
      requires Valid()
      modifies this
      ensures Valid() && nextId == old(nextId) + 1
      ensures r.Some? <==> !fail && HasForm(old(db).forms, row.formId)
      ensures r.None? ==> db == old(db)
      ensures r.Some? ==> && r.value == row.(id := IdOf(old(nextId)))
                          && db == old(db).(fields := old(db).fields + [r.value])
    {
      var id := IdOf(nextId);
      nextId := nextId + 1;
      if fail || !HasForm(db.forms, row.formId) {
        return None;
      }
      var created := row.(id := id);
      db := db.(fields := db.fields + [created]);
      r := Some(created);
    }

    /** `insert(row).select().single()` on `form_responses`. */
    method InsertResponse(row: ResponseRow, fail: bool) returns (r: Option<ResponseRow>)
      requires Valid()
      modifies this
      ensures Valid() && nextId == old(nextId) + 1
      ensures r.Some? <==> !fail
      ensures r.None? ==> db == old(db)
      ensures r.Some? ==> && r.value == row.(id := IdOf(old(nextId)))
                          && db == old(db).(responses := old(db).responses + [r.value])
    {
      var id := IdOf(nextId);
      nextId := nextId + 1;
      if fail {
        return None;
      }
      var created := row.(id := id);
      db := db.(responses := db.responses + [created]);
      r := Some(created);
    }

    /** One multi-row `insert(rows)` on `form_response_data`: all rows or none. */
    method InsertResponseData(rows: seq<ResponseDataRow>, fail: bool) returns (ok: bool)
      requires Valid()
      modifies this
      ensures Valid() && nextId == old(nextId) + |rows|
      ensures ok == !fail
      ensures !ok ==> db == old(db)
      ensures ok ==> db == old(db).(responseData := old(db).responseData + Numbered(rows, old(nextId)))
    {
      var first := nextId;
      nextId := nextId + |rows|;
      if fail {
        return false;
      }
      db := db.(responseData := db.responseData + Numbered(rows, first));
      ok := true;
    }

    /** `update({ order_index, updated_at? }).eq('id', id)[.eq('company_id', c)]` on `forms`. */
    method UpdateFormOrder(id: Id, company: Option<string>, orderIndex: int, updatedAt: Option<int>, fail: bool) returns (ok: bool)
      requires Valid()
      modifies this
      ensures Valid()
      ensures ok == !fail && nextId == old(nextId)
      ensures fail ==> db == old(db)
      ensures !fail ==> db == old(db).(forms := SetFormOrder(old(db).forms, id, company, orderIndex, updatedAt))
    {
      if fail {
        return false;
      }
      db := db.(forms := SetFormOrder(db.forms, id, company, orderIndex, updatedAt));
      ok := true;
    }
  }

  /** The rows of one multi-row insert, given consecutive ids from the n-th on. */
  function Numbered(rows: seq<ResponseDataRow>, n: nat): (r: seq<ResponseDataRow>)
    ensures |r| == |rows|
    ensures forall k :: 0 <= k < |rows| ==> r[k] == rows[k].(id := IdOf(n + k))
  {
    seq(|rows|, k requires 0 <= k < |rows| => rows[k].(id := IdOf(n + k)))
  }
}
