/** `POST /api/forms`: validate the body, insert the form, insert its steps
    while recording which client-side step key became which durable step
    id, insert the fields with their step references rewritten through that
    record, and read the whole form back. */
module CreateForm {
  import opened Js
  import opened Query
  import opened Store

  /** A step as the builder sends it: `id` is the builder's temporary key. */
  datatype StepInput = StepInput(id: Option<string>, title: string, description: Option<string>)

  /** A field as the builder sends it; `stepId` names a step by its temporary key. */
  datatype FieldInput = FieldInput(
    id: Option<string>,
    fieldType: string,
    fieldLabel: Option<string>,
    placeholder: Option<string>,
    content: Option<string>,
    required: Option<bool>,
    options: Option<seq<string>>,
    stepId: Option<string>)

  /** The request body; None is a property the body leaves out. */
  datatype CreateRequest = CreateRequest(
    title: Option<string>,
    description: Option<string>,
    companyId: Option<string>,
    formType: Option<string>,
    steps: Option<seq<StepInput>>,
    fields: Option<seq<FieldInput>>,
    settings: Option<Settings>,
    useDefaultColors: Option<bool>)

  /** The HTTP answer: the created form, or a status with its error text. */
  datatype Outcome = Created(doc: FormDoc) | Failure(status: int, error: string)

  /** Which store calls fail. Entry i of a sequence decides the i-th call of
      that kind; calls past the end of a sequence succeed. */
  datatype Faults = Faults(formInsert: bool, stepInserts: seq<bool>, fieldInserts: seq<bool>, refetch: bool)

  // ---------------------------------------------------------------------
  // Request defaults

  function StepsOf(req: CreateRequest): seq<StepInput> { GetOr(req.steps, []) }
  function FieldsOf(req: CreateRequest): seq<FieldInput> { GetOr(req.fields, []) }
  function FormTypeOf(req: CreateRequest): string { GetOr(req.formType, "single") }

  /** The body names a title and a company. */
  predicate Accepted(req: CreateRequest)
  {
    Truthy(req.title) && Truthy(req.companyId)
  }

  /** The row handed to the `forms` insert: the defaults of the body, the
      verified user as creator, and the database's own defaults for
      is_active, order_index and the timestamps. The store fills in the id. */
  function FormRowOf(req: CreateRequest, userId: string, now: int): FormRow
  {
    FormRow("", GetOr(req.title, ""), req.description, GetOr(req.companyId, ""), userId,
            FormTypeOf(req), GetOr(req.settings, map[]), Some(GetOr(req.useDefaultColors, true)),
            true, Some(0), now, now)
  }

  /** Steps are written only for a multi-step form that sends some. */
  predicate StepsWanted(req: CreateRequest)
  {
    FormTypeOf(req) == "multi-step" && |StepsOf(req)| > 0
  }

  // ---------------------------------------------------------------------
  // The step-id record

  /** The key under which step i is recorded: its own id when that is a
      non-empty string, otherwise `step_<i>`. */
  function StepKey(s: StepInput, i: nat): string
  {
    OrElse(s.id, "step_" + NatToString(i))
  }

  function StepRowOf(formId: Id, s: StepInput, i: nat): StepRow
  {
    StepRow("", formId, s.title, s.description, i)
  }

  /** The rows that the first k step inserts write, the i-th with the
      (b + i)-th id. */
  function StepRows(formId: Id, steps: seq<StepInput>, b: nat, k: nat): (r: seq<StepRow>)
    requires k <= |steps|
    ensures |r| == k
    ensures forall i :: 0 <= i < |r| ==> r[i].formId == formId
  {
    if k == 0 then [] else StepRows(formId, steps, b, k - 1) + [StepRowOf(formId, steps[k - 1], k - 1).(id := IdOf(b + k - 1))]
  }

  /** Row i of the step rows is step i with the (b + i)-th id. */
  lemma {:induction false} StepRowsAt(formId: Id, steps: seq<StepInput>, b: nat, k: nat, i: nat)
    requires i < k <= |steps|
    ensures StepRows(formId, steps, b, k)[i] == StepRowOf(formId, steps[i], i).(id := IdOf(b + i))
  {
    if i < k - 1 {
      StepRowsAt(formId, steps, b, k - 1, i);
    }
  }

  /** The step-id record after the first k steps were inserted with ids
      from the b-th on; a later step with the same key overwrites. */
  function Remap(steps: seq<StepInput>, b: nat, k: nat): map<string, Id>
    requires k <= |steps|
  {
    if k == 0 then map[] else Remap(steps, b, k - 1)[StepKey(steps[k - 1], k - 1) := IdOf(b + k - 1)]
  }

  /** The durable step of a field: the recorded id when the field names a
      key that has a (non-empty) record, otherwise null. */
  function MapStepRef(ref: Option<string>, m: map<string, Id>): Option<Id>
  {
    if Truthy(ref) && ref.value in m && m[ref.value] != "" then Some(m[ref.value]) else None
  }

  /** The row handed to the `form_fields` insert for field i. */
  function FieldRowOf(formId: Id, f: FieldInput, i: nat, m: map<string, Id>): FieldRow
  {
    FieldRow("", formId, f.fieldType, f.fieldLabel, f.placeholder, f.content,
             GetOr(f.required, false), GetOr(f.options, []), i, MapStepRef(f.stepId, m))
  }

  /** Field j as stored, when its insert is the call that receives the
      (c + j)-th id. */
  function FieldRowAt(formId: Id, fields: seq<FieldInput>, m: map<string, Id>, c: nat, j: nat): FieldRow
    requires j < |fields|
  {
    FieldRowOf(formId, fields[j], j, m).(id := IdOf(c + j))
  }

  /** The rows that the first k field inserts write when the insert of
      field j fails exactly when `Fails(fails, j)`. */
  function InsertedFields(formId: Id, fields: seq<FieldInput>, m: map<string, Id>, c: nat, fails: seq<bool>, k: nat): (r: seq<FieldRow>)
    requires k <= |fields|
    ensures |r| <= k
    ensures forall i :: 0 <= i < |r| ==> r[i].formId == formId
  {
    if k == 0 then []
    else
      InsertedFields(formId, fields, m, c, fails, k - 1)
      + (if Fails(fails, k - 1) then [] else [FieldRowAt(formId, fields, m, c, k - 1)])
  }

  /** How many steps the handler inserts before it stops. */
  function StepsInserted(req: CreateRequest, faults: Faults): (k: nat)
    ensures k <= |StepsOf(req)|
  {
    if StepsWanted(req) then FirstFailure(faults.stepInserts, |StepsOf(req)|) else 0
  }

  /** A step insert failed, which ends the request. */
  predicate StepFailed(req: CreateRequest, faults: Faults)
  {
    StepsWanted(req) && StepsInserted(req, faults) < |StepsOf(req)|
  }

  // ---------------------------------------------------------------------
  // The handler

  /** The new form row, when the form insert receives the n0-th id. */
  function NewForm(n0: nat, req: CreateRequest, userId: string, now: int): FormRow
  {
    FormRowOf(req, userId, now).(id := IdOf(n0))
  }

  /** The new step rows. */
  function NewSteps(n0: nat, req: CreateRequest, faults: Faults): seq<StepRow>
  {
    StepRows(IdOf(n0), StepsOf(req), n0 + 1, StepsInserted(req, faults))
  }

  /** The new field rows: none after a failed step, otherwise those whose
      insert succeeded, with ids following the steps'. */
  function NewFields(n0: nat, req: CreateRequest, faults: Faults): seq<FieldRow>
  {
    var k := StepsInserted(req, faults);
    if StepFailed(req, faults) then []
    else InsertedFields(IdOf(n0), FieldsOf(req), Remap(StepsOf(req), n0 + 1, k), n0 + 1 + k,
                        faults.fieldInserts, |FieldsOf(req)|)
  }

  /** The tables after a request whose form insert succeeded. */
  function Written(db: Db, n0: nat, req: CreateRequest, userId: string, now: int, faults: Faults): Db
  {
    db.(forms := db.forms + [NewForm(n0, req, userId, now)],
        steps := db.steps + NewSteps(n0, req, faults),
        fields := db.fields + NewFields(n0, req, faults))
  }

  /** The answer to a request whose form insert succeeded. */
  function Answer(n0: nat, req: CreateRequest, userId: string, now: int, faults: Faults): Outcome
  {
    if StepFailed(req, faults) then Failure(500, "Failed to create step")
    else if faults.refetch then Failure(500, "Failed to fetch complete form")
    else Created(FormDoc(NewForm(n0, req, userId, now), NewFields(n0, req, faults), NewSteps(n0, req, faults)))
  }


  /** The handler. `userId` is the verified user, or None when token
      verification throws; `now` is the database clock. */
  method Post(store: Store, req: CreateRequest, userId: Option<string>, now: int, faults: Faults) returns (out: Outcome)
    requires store.Valid()
    modifies store
    ensures store.Valid()
    ensures userId.None? ==> out == Failure(500, "Internal server error") && store.db == old(store.db)
    ensures userId.Some? && !Accepted(req) ==> out == Failure(400, "Missing required fields") && store.db == old(store.db)
    ensures userId.Some? && Accepted(req) && faults.formInsert ==>
      out == Failure(500, "Failed to create form") && store.db == old(store.db)
    ensures userId.Some? && Accepted(req) && !faults.formInsert ==>
      && store.db == Written(old(store.db), old(store.nextId), req, userId.value, now, faults)
      && out == Answer(old(store.nextId), req, userId.value, now, faults)
  {
    if userId.None? {
      return Failure(500, "Internal server error");
    }
    if !Truthy(req.title) || !Truthy(req.companyId) {
      return Failure(400, "Missing required fields");
    }
    ghost var db0 := store.db;
    ghost var n0 := store.nextId;
    var created := store.InsertForm(FormRowOf(req, userId.value, now), faults.formInsert);
    if created.None? {
      return Failure(500, "Failed to create form");
    }
    var form := created.value;
    out := WriteChildren(store, req, userId.value, now, faults, db0, n0, form);
  }

  /** Lines 117-202 of the handler, once the form row exists: the steps,
      the fields and the read-back. */
  method WriteChildren(store: Store, req: CreateRequest, userId: string, now: int, faults: Faults,
                       ghost db0: Db, ghost n0: nat, form: FormRow) returns (out: Outcome)
    requires store.Valid() && IdsBelow(db0, n0)
    requires form == NewForm(n0, req, userId, now) && store.nextId == n0 + 1
    requires store.db == db0.(forms := db0.forms + [form])
    modifies store
    ensures store.Valid()
    ensures store.db == Written(db0, n0, req, userId, now, faults)
    ensures out == Answer(n0, req, userId, now, faults)
  {
    var stepIdMap, failed := StepPhase(store, req, faults, db0, n0, form);
    if failed {
      return Failure(500, "Failed to create step");
    }
    var fields := FieldsOf(req);
    if |fields| > 0 {
      InsertFieldsUnchecked(store, form.id, fields, stepIdMap, faults.fieldInserts);
    }
    assert store.db == Written(db0, n0, req, userId, now, faults);

    if faults.refetch {
      return Failure(500, "Failed to fetch complete form");
    }
    ReadBackFindsNewRows(db0, n0, req, userId, now, faults);
    return Created(FormDoc(form, FieldsOfForm(store.db.fields, form.id), StepsOfForm(store.db.steps, form.id)));
  }

  /** Lines 117-143: the steps of a multi-step form that sends some. */
  method StepPhase(store: Store, req: CreateRequest, faults: Faults, ghost db0: Db, ghost n0: nat, form: FormRow)
    returns (stepIdMap: map<string, Id>, failed: bool)
    requires store.Valid() && form.id == IdOf(n0) && store.nextId == n0 + 1
    requires store.db == db0.(forms := db0.forms + [form])
    modifies store
    ensures store.Valid() && HasForm(store.db.forms, form.id)
    ensures failed == StepFailed(req, faults)
    ensures store.db == db0.(forms := db0.forms + [form], steps := db0.steps + NewSteps(n0, req, faults))
    ensures !failed ==> && store.nextId == n0 + 1 + StepsInserted(req, faults)
                        && stepIdMap == Remap(StepsOf(req), n0 + 1, StepsInserted(req, faults))
  {
    assert HasForm(store.db.forms, form.id) by {
      assert store.db.forms[|db0.forms|] == form;
    }
    var steps := StepsOf(req);
    stepIdMap := map[];
    failed := false;
    if FormTypeOf(req) == "multi-step" && |steps| > 0 {
      var count;
      stepIdMap, count, failed := InsertSteps(store, form.id, steps, faults.stepInserts);
      FirstFailureAgree(Refusals(faults.stepInserts, |steps|, true), faults.stepInserts, |steps|);
    }
  }

  /** The step loop: insert the steps in order, the i-th with
      order_index i, recording each key's durable id; stop at the first
      failing insert. An insert fails when the environment says so or when
      the form does not exist. */
  method InsertSteps(store: Store, formId: Id, steps: seq<StepInput>, fails: seq<bool>)
    returns (stepIdMap: map<string, Id>, count: nat, failed: bool)
    requires store.Valid()
    modifies store
    ensures store.Valid() && store.db.forms == old(store.db.forms)
    ensures count == FirstFailure(Refusals(fails, |steps|, HasForm(old(store.db).forms, formId)), |steps|)
    ensures failed == (count < |steps|)
    ensures store.db == old(store.db).(steps := old(store.db).steps + StepRows(formId, steps, old(store.nextId), count))
    ensures !failed ==> stepIdMap == Remap(steps, old(store.nextId), count) && store.nextId == old(store.nextId) + count
  {
    ghost var db0 := store.db;
    ghost var b := store.nextId;
    ghost var refusals := Refusals(fails, |steps|, HasForm(db0.forms, formId));
    stepIdMap := map[];
    count := 0;
    while count < |steps|
      invariant count <= FirstFailure(refusals, |steps|)
      invariant store.Valid() && store.nextId == b + count
      invariant store.db == db0.(steps := db0.steps + StepRows(formId, steps, b, count))
      invariant stepIdMap == Remap(steps, b, count)
    {
      var step := steps[count];
      var createdStep := store.InsertStep(StepRowOf(formId, step, count), Fails(fails, count));
      assert createdStep.None? <==> Fails(refusals, count);
      if createdStep.None? {
        return stepIdMap, count, true;
      }
      FirstFailureStep(refusals, |steps|, count);
      assert db0.steps + StepRows(formId, steps, b, count + 1) == (db0.steps + StepRows(formId, steps, b, count)) + [createdStep.value];
      stepIdMap := stepIdMap[StepKey(step, count) := createdStep.value.id];
      count := count + 1;
    }
    failed := false;
  }

  /** The field loop: insert every field, the j-th with order_index j and
      its step reference rewritten through the record, without looking at
      whether the insert succeeded. */
  method InsertFieldsUnchecked(store: Store, formId: Id, fields: seq<FieldInput>, stepIdMap: map<string, Id>, fails: seq<bool>)
    requires store.Valid() && HasForm(store.db.forms, formId)
    modifies store
    ensures store.Valid() && store.nextId == old(store.nextId) + |fields|
    ensures store.db == old(store.db).(fields := old(store.db).fields
                                         + InsertedFields(formId, fields, stepIdMap, old(store.nextId), fails, |fields|))
  {
    ghost var db0 := store.db;
    ghost var c := store.nextId;
    var fieldIndex := 0;
    while fieldIndex < |fields|
      invariant 0 <= fieldIndex <= |fields|
      invariant store.Valid() && store.nextId == c + fieldIndex
      invariant store.db == db0.(fields := db0.fields + InsertedFields(formId, fields, stepIdMap, c, fails, fieldIndex))
    {
      var field := fields[fieldIndex];
      var mappedStepId: Option<Id> := None;
      if Truthy(field.stepId) && field.stepId.value in stepIdMap && stepIdMap[field.stepId.value] != "" {
        mappedStepId := Some(stepIdMap[field.stepId.value]);
      }
      var row := FieldRow("", formId, field.fieldType, field.fieldLabel, field.placeholder, field.content,
                          GetOr(field.required, false), GetOr(field.options, []), fieldIndex, mappedStepId);
      var ignored := store.InsertField(row, Fails(fails, fieldIndex));
      fieldIndex := fieldIndex + 1;
    }
  }

  /** Reading the new form back with its steps and fields finds exactly
      the rows this request wrote: rows written earlier belong to forms
      whose ids were handed out earlier. */
  lemma ReadBackFindsNewRows(db0: Db, n0: nat, req: CreateRequest, userId: string, now: int, faults: Faults)
    requires IdsBelow(db0, n0)
    ensures var db := Written(db0, n0, req, userId, now, faults);
      && StepsOfForm(db.steps, IdOf(n0)) == NewSteps(n0, req, faults)
      && FieldsOfForm(db.fields, IdOf(n0)) == NewFields(n0, req, faults)
  {
    var db := Written(db0, n0, req, userId, now, faults);
    FilterNewPart(db0.steps, NewSteps(n0, req, faults), StepIsOf(IdOf(n0)));
    FilterNewPart(db0.fields, NewFields(n0, req, faults), FieldIsOf(IdOf(n0)));
  }

  /** The new form row: the body's title, company and description, the
      defaults 'single', {} and true where the body leaves those out, and
      always the verified user as creator. */
  lemma NewFormDefaults(n0: nat, req: CreateRequest, userId: string, now: int)
    requires Accepted(req)
    ensures var f := NewForm(n0, req, userId, now);
      && f.id == IdOf(n0) && f.title == req.title.value && f.companyId == req.companyId.value
      && f.description == req.description && f.createdBy == userId
      && (req.formType.None? ==> f.formType == "single")
      && (req.settings.None? ==> f.settings == map[])
      && (req.useDefaultColors.None? ==> f.useDefaultColors == Some(true))
  {
  }

  /** Field inserts are never checked: the request fails only for a failed
      step or a failed read-back, whatever the field inserts do. */
  lemma FieldFailuresNeverAbort(n0: nat, req: CreateRequest, userId: string, now: int, faults: Faults, fieldInserts: seq<bool>)
    ensures Answer(n0, req, userId, now, faults).Created? <==> !StepFailed(req, faults) && !faults.refetch
    ensures Answer(n0, req, userId, now, faults.(fieldInserts := fieldInserts)).Created? == Answer(n0, req, userId, now, faults).Created?
  {
  }

  /** A field row carries the field's position as order_index, and
      `required` false and `options` [] when the body leaves them out. */
  lemma FieldRowDefaults(formId: Id, f: FieldInput, i: nat, m: map<string, Id>)
    ensures var r := FieldRowOf(formId, f, i, m);
      && r.formId == formId && r.orderIndex == i && r.fieldType == f.fieldType
      && (f.required.None? ==> !r.required)
      && (f.options.None? ==> r.options == [])
      && (r.stepId.Some? <==> Truthy(f.stepId) && f.stepId.value in m && m[f.stepId.value] != "")
      && (r.stepId.Some? ==> r.stepId.value == m[f.stepId.value])
  {
  }

  // ---------------------------------------------------------------------
  // Properties of the step-id record and of the rows written

  /** No step after position i (and before k) is recorded under key. */
  predicate NoLaterKey(steps: seq<StepInput>, key: string, i: nat, k: nat)
    requires k <= |steps|
  {
    forall j :: i < j < k ==> StepKey(steps[j], j) != key
  }

  /** A key is recorded exactly when some of the first k steps has it. */
  lemma {:induction false} RemapHasKey(steps: seq<StepInput>, b: nat, k: nat, key: string)
    requires k <= |steps|
    ensures key in Remap(steps, b, k) <==> exists i :: 0 <= i < k && StepKey(steps[i], i) == key
  {
    if k > 0 {
      RemapHasKey(steps, b, k - 1, key);
    }
  }

  /** The last writer wins: the key of step i holds step i's id unless a
      later step has the same key. */
  lemma {:induction false} RemapLastWins(steps: seq<StepInput>, b: nat, k: nat, i: nat)
    requires i < k <= |steps|
    requires NoLaterKey(steps, StepKey(steps[i], i), i, k)
    ensures StepKey(steps[i], i) in Remap(steps, b, k)
    ensures Remap(steps, b, k)[StepKey(steps[i], i)] == IdOf(b + i)
  {
    if i < k - 1 {
      assert NoLaterKey(steps, StepKey(steps[i], i), i, k - 1);
      RemapLastWins(steps, b, k - 1, i);
    }
  }

  /** When the steps' keys are distinct, every step's key leads back to that
      step's own durable id. */
  lemma RemapDistinctKeys(steps: seq<StepInput>, b: nat, k: nat)
    requires k <= |steps|
    requires forall i, j :: 0 <= i < j < k ==> StepKey(steps[i], i) != StepKey(steps[j], j)
    ensures forall i :: 0 <= i < k ==>
      (StepKey(steps[i], i) in Remap(steps, b, k) && Remap(steps, b, k)[StepKey(steps[i], i)] == IdOf(b + i))
  {
    forall i | 0 <= i < k
      ensures StepKey(steps[i], i) in Remap(steps, b, k) && Remap(steps, b, k)[StepKey(steps[i], i)] == IdOf(b + i)
    {
      RemapLastWins(steps, b, k, i);
    }
  }

  /** Every recorded id is the id of one of the inserted steps, that is,
      one of the ids from the b-th to the (b + k - 1)-th. */
  lemma {:induction false} RemapTargets(steps: seq<StepInput>, b: nat, k: nat)
    requires k <= |steps|
    ensures forall key :: key in Remap(steps, b, k) ==>
      b < |Remap(steps, b, k)[key]| <= b + k && Remap(steps, b, k)[key] == IdOf(|Remap(steps, b, k)[key]| - 1)
  {
    if k > 0 {
      RemapTargets(steps, b, k - 1);
    }
  }

  /** The rows the field loop writes are exactly the fields whose insert
      succeeds, each as `FieldRowAt` builds it. */
  lemma {:induction false} InsertedFieldsExactly(formId: Id, fields: seq<FieldInput>, m: map<string, Id>, c: nat, fails: seq<bool>, k: nat)
    requires k <= |fields|
    ensures forall r :: r in InsertedFields(formId, fields, m, c, fails, k) <==>
      exists j :: 0 <= j < k && !Fails(fails, j) && r == FieldRowAt(formId, fields, m, c, j)
  {
    if k > 0 {
      InsertedFieldsExactly(formId, fields, m, c, fails, k - 1);
    }
  }

  /** Without failures, field j is the j-th row written and carries
      order_index j. */
  lemma {:induction false} InsertedFieldsWithoutFaults(formId: Id, fields: seq<FieldInput>, m: map<string, Id>, c: nat, fails: seq<bool>, k: nat)
    requires k <= |fields|
    requires forall j :: 0 <= j < k ==> !Fails(fails, j)
    ensures InsertedFields(formId, fields, m, c, fails, k) == seq(k, j requires 0 <= j < k => FieldRowAt(formId, fields, m, c, j))
  {
    if k > 0 {
      InsertedFieldsWithoutFaults(formId, fields, m, c, fails, k - 1);
    }
  }

  /** A field's step reference is one of the values of the record. */
  lemma FieldRefsFromRecord(formId: Id, fields: seq<FieldInput>, m: map<string, Id>, c: nat, fails: seq<bool>, n: nat)
    requires n <= |fields|
    ensures forall r :: r in InsertedFields(formId, fields, m, c, fails, n) && r.stepId.Some? ==>
      exists key :: key in m && m[key] == r.stepId.value
  {
    InsertedFieldsExactly(formId, fields, m, c, fails, n);
    forall r | r in InsertedFields(formId, fields, m, c, fails, n) && r.stepId.Some?
      ensures exists key :: key in m && m[key] == r.stepId.value
    {
      var j :| 0 <= j < n && !Fails(fails, j) && r == FieldRowAt(formId, fields, m, c, j);
      assert fields[j].stepId.value in m;
    }
  }

  /** Every value of the record is the id of one of the step rows written. */
  lemma RecordPointsAtRows(formId: Id, steps: seq<StepInput>, b: nat, k: nat, key: string)
    requires k <= |steps| && key in Remap(steps, b, k)
    ensures exists s :: s in StepRows(formId, steps, b, k) && s.id == Remap(steps, b, k)[key]
  {
    RemapTargets(steps, b, k);
    var v := Remap(steps, b, k)[key];
    StepRowsAt(formId, steps, b, k, |v| - 1 - b);
  }

  /** Referential integrity: a field row that names a step names one of the
      steps this request inserted. */
  lemma FieldStepsAreNewSteps(n0: nat, req: CreateRequest, faults: Faults)
    ensures forall r :: r in NewFields(n0, req, faults) && r.stepId.Some? ==>
      exists s :: s in NewSteps(n0, req, faults) && s.id == r.stepId.value
  {
    var k := StepsInserted(req, faults);
    var m := Remap(StepsOf(req), n0 + 1, k);
    if !StepFailed(req, faults) {
      FieldRefsFromRecord(IdOf(n0), FieldsOf(req), m, n0 + 1 + k, faults.fieldInserts, |FieldsOf(req)|);
      forall r | r in NewFields(n0, req, faults) && r.stepId.Some?
        ensures exists s :: s in NewSteps(n0, req, faults) && s.id == r.stepId.value
      {
        var key :| key in m && m[key] == r.stepId.value;
        RecordPointsAtRows(IdOf(n0), StepsOf(req), n0 + 1, k, key);
      }
    }
  }

  /** A form that is not multi-step (or sends no steps) gets no steps, and
      all its fields get a null step_id. */
  lemma SingleFormFieldsHaveNoStep(n0: nat, req: CreateRequest, faults: Faults)
    requires !StepsWanted(req)
    ensures NewSteps(n0, req, faults) == []
    ensures forall r :: r in NewFields(n0, req, faults) ==> r.stepId.None?
  {
    InsertedFieldsExactly(IdOf(n0), FieldsOf(req), map[], n0 + 1, faults.fieldInserts, |FieldsOf(req)|);
  }
}
