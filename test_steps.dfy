/** `POST /api/debug/test-steps`: the step-id record of the create path on
    its own, for an existing form. Every supplied step is written whatever
    the form's type, and a failing field insert ends the request. */
module TestSteps {
  import opened Js
  import opened Store
  import opened CreateForm

  /** The body. A missing `formId` is given as "", which is the id of no
      form, so every insert it leads to violates the foreign key. */
  datatype TestRequest = TestRequest(formId: Id, steps: Option<seq<StepInput>>, fields: Option<seq<FieldInput>>)

  /** An entry of `createdFields`: the stored row plus the step key the
      client sent and the id it was mapped to. */
  datatype CreatedField = CreatedField(row: FieldRow, originalStepId: Option<string>, mappedStepId: Option<Id>)

  datatype TestOutcome = Done(stepIdMap: map<string, Id>, createdFields: seq<CreatedField>) | Failed(status: int, error: string)

  /** Which inserts fail; entry i decides the i-th insert of that kind. */
  datatype TestFaults = TestFaults(stepInserts: seq<bool>, fieldInserts: seq<bool>)

  function TStepsOf(req: TestRequest): seq<StepInput> { GetOr(req.steps, []) }
  function TFieldsOf(req: TestRequest): seq<FieldInput> { GetOr(req.fields, []) }

  /** How many steps are written before one fails. */
  function StepsWritten(db: Db, req: TestRequest, faults: TestFaults): (k: nat)
    ensures k <= |TStepsOf(req)|
  {
    FirstFailure(Refusals(faults.stepInserts, |TStepsOf(req)|, HasForm(db.forms, req.formId)), |TStepsOf(req)|)
  }

  /** How many fields are written before one fails, once all steps were. */
  function FieldsWritten(db: Db, req: TestRequest, faults: TestFaults): (k: nat)
    ensures k <= |TFieldsOf(req)|
  {
    FirstFailure(Refusals(faults.fieldInserts, |TFieldsOf(req)|, HasForm(db.forms, req.formId)), |TFieldsOf(req)|)
  }

  /** The first k fields as written, with ids from the c-th on and no gaps. */
  function FieldPrefix(formId: Id, fields: seq<FieldInput>, m: map<string, Id>, c: nat, k: nat): (r: seq<FieldRow>)
    requires k <= |fields|
    ensures |r| == k
  {
    seq(k, j requires 0 <= j < k => FieldRowAt(formId, fields, m, c, j))
  }

  lemma FieldPrefixSnoc(formId: Id, fields: seq<FieldInput>, m: map<string, Id>, c: nat, k: nat)
    requires k < |fields|
    ensures FieldPrefix(formId, fields, m, c, k + 1) == FieldPrefix(formId, fields, m, c, k) + [FieldRowAt(formId, fields, m, c, k)]
  {
  }

  /** The `createdFields` entries of the first k fields. */
  function CreatedList(formId: Id, fields: seq<FieldInput>, m: map<string, Id>, c: nat, k: nat): (r: seq<CreatedField>)
    requires k <= |fields|
    ensures |r| == k
  {
    seq(k, j requires 0 <= j < k => CreatedField(FieldRowAt(formId, fields, m, c, j), fields[j].stepId, MapStepRef(fields[j].stepId, m)))
  }

  lemma CreatedListSnoc(formId: Id, fields: seq<FieldInput>, m: map<string, Id>, c: nat, k: nat)
    requires k < |fields|
    ensures CreatedList(formId, fields, m, c, k + 1)
      == CreatedList(formId, fields, m, c, k) + [CreatedField(FieldRowAt(formId, fields, m, c, k), fields[k].stepId, MapStepRef(fields[k].stepId, m))]
  {
  }

  function TNewSteps(db: Db, n0: nat, req: TestRequest, faults: TestFaults): seq<StepRow>
  {
    StepRows(req.formId, TStepsOf(req), n0, StepsWritten(db, req, faults))
  }

  function TNewFields(db: Db, n0: nat, req: TestRequest, faults: TestFaults): seq<FieldRow>
  {
    var steps := TStepsOf(req);
    if StepsWritten(db, req, faults) < |steps| then []
    else FieldPrefix(req.formId, TFieldsOf(req), Remap(steps, n0, |steps|), n0 + |steps|, FieldsWritten(db, req, faults))
  }

  /** The tables after the request, when the store's next id was the n0-th. */
  function TWritten(db: Db, n0: nat, req: TestRequest, faults: TestFaults): Db
  {
    db.(steps := db.steps + TNewSteps(db, n0, req, faults), fields := db.fields + TNewFields(db, n0, req, faults))
  }

  /** The answer to the request. */
  function TAnswer(db: Db, n0: nat, req: TestRequest, faults: TestFaults): TestOutcome
  {
    var steps := TStepsOf(req);
    var m := Remap(steps, n0, |steps|);
    if StepsWritten(db, req, faults) < |steps| then Failed(500, "Failed to create step")
    else if FieldsWritten(db, req, faults) < |TFieldsOf(req)| then Failed(500, "Failed to create field")
    else Done(m, CreatedList(req.formId, TFieldsOf(req), m, n0 + |steps|, |TFieldsOf(req)|))
  }

  /** The handler. */
  method Post(store: Store, req: TestRequest, faults: TestFaults) returns (out: TestOutcome)
    requires store.Valid()
    modifies store
    ensures store.Valid()
    ensures store.db == TWritten(old(store.db), old(store.nextId), req, faults)
    ensures out == TAnswer(old(store.db), old(store.nextId), req, faults)
  {
    ghost var db0 := store.db;
    ghost var n0 := store.nextId;
    var steps := TStepsOf(req);
    var stepIdMap: map<string, Id> := map[];
    var stepCount := 0;
    if |steps| > 0 {
      var failed;
      stepIdMap, stepCount, failed := InsertSteps(store, req.formId, steps, faults.stepInserts);
      if failed {
        assert store.db == TWritten(db0, n0, req, faults);
        return Failed(500, "Failed to create step");
      }
    }
    assert stepCount == StepsWritten(db0, req, faults) == |steps|;
    assert stepIdMap == Remap(steps, n0, |steps|) && store.nextId == n0 + |steps|;
    out := FieldPhase(store, req, faults, stepIdMap, db0, n0);
  }

  /** Lines 40-86, once every step was written. */
  method FieldPhase(store: Store, req: TestRequest, faults: TestFaults, stepIdMap: map<string, Id>, ghost db0: Db, ghost n0: nat)
    returns (out: TestOutcome)
    requires store.Valid() && StepsWritten(db0, req, faults) == |TStepsOf(req)|
    requires stepIdMap == Remap(TStepsOf(req), n0, |TStepsOf(req)|) && store.nextId == n0 + |TStepsOf(req)|
    requires store.db == db0.(steps := db0.steps + TNewSteps(db0, n0, req, faults))
    modifies store
    ensures store.Valid()
    ensures store.db == TWritten(db0, n0, req, faults)
    ensures out == TAnswer(db0, n0, req, faults)
  {
    var fields := TFieldsOf(req);
    var createdFields: seq<CreatedField> := [];
    var fieldCount := 0;
    if |fields| > 0 {
      var failed;
      createdFields, fieldCount, failed := WriteFields(store, req.formId, fields, stepIdMap, faults.fieldInserts);
      if failed {
        return Failed(500, "Failed to create field");
      }
    }
    return Done(stepIdMap, createdFields);
  }

  /** Lines 42-79: every field in order, each recorded in `createdFields`;
      stop at the first failing insert. */
  method WriteFields(store: Store, formId: Id, fields: seq<FieldInput>, stepIdMap: map<string, Id>, fails: seq<bool>)
    returns (createdFields: seq<CreatedField>, count: nat, failed: bool)
    requires store.Valid()
    modifies store
    ensures store.Valid()
    ensures count == FirstFailure(Refusals(fails, |fields|, HasForm(old(store.db).forms, formId)), |fields|)
    ensures failed == (count < |fields|)
    ensures store.db == old(store.db).(fields := old(store.db).fields + FieldPrefix(formId, fields, stepIdMap, old(store.nextId), count))
    ensures createdFields == CreatedList(formId, fields, stepIdMap, old(store.nextId), count)
  {
    ghost var db0 := store.db;
    ghost var c := store.nextId;
    ghost var refusals := Refusals(fails, |fields|, HasForm(db0.forms, formId));
    createdFields := [];
    count := 0;
    while count < |fields|
      invariant count <= FirstFailure(refusals, |fields|)
      invariant store.Valid() && store.nextId == c + count
      invariant store.db == db0.(fields := db0.fields + FieldPrefix(formId, fields, stepIdMap, c, count))
      invariant createdFields == CreatedList(formId, fields, stepIdMap, c, count)
    {
      var field := fields[count];
      var mappedStepId: Option<Id> := None;
      if Truthy(field.stepId) && field.stepId.value in stepIdMap && stepIdMap[field.stepId.value] != "" {
        mappedStepId := Some(stepIdMap[field.stepId.value]);
      }
      var row := FieldRow("", formId, field.fieldType, field.fieldLabel, field.placeholder, field.content,
                          GetOr(field.required, false), GetOr(field.options, []), count, mappedStepId);
      var createdField := store.InsertField(row, Fails(fails, count));
      assert createdField.None? <==> Fails(refusals, count);
      if createdField.None? {
        return createdFields, count, true;
      }
      FirstFailureStep(refusals, |fields|, count);
      FieldPrefixSnoc(formId, fields, stepIdMap, c, count);
      CreatedListSnoc(formId, fields, stepIdMap, c, count);
      createdFields := createdFields + [CreatedField(createdField.value, field.stepId, mappedStepId)];
      count := count + 1;
    }
    failed := false;
  }

  // ---------------------------------------------------------------------
  // Properties

  /** When the form does not exist, nothing is written; the request fails
      unless it sends neither steps nor fields. */
  lemma UnknownFormWritesNothing(db: Db, n0: nat, req: TestRequest, faults: TestFaults)
    requires !HasForm(db.forms, req.formId)
    ensures TWritten(db, n0, req, faults) == db
    ensures TAnswer(db, n0, req, faults).Done? <==> |TStepsOf(req)| == 0 && |TFieldsOf(req)| == 0
  {
    var steps := TStepsOf(req);
    var fields := TFieldsOf(req);
    assert |steps| > 0 ==> Fails(Refusals(faults.stepInserts, |steps|, false), 0);
    assert |fields| > 0 ==> Fails(Refusals(faults.fieldInserts, |fields|, false), 0);
  }

  /** On success every created field records the stored row, in field
      order with order_index equal to its position, and a mapped step id
      that is the id of one of the steps just written. */
  lemma CreatedFieldsReferToNewSteps(db: Db, n0: nat, req: TestRequest, faults: TestFaults)
    requires TAnswer(db, n0, req, faults).Done?
    ensures var created := TAnswer(db, n0, req, faults).createdFields;
      && |created| == |TFieldsOf(req)|
      && (forall j :: 0 <= j < |created| ==> created[j].row == TNewFields(db, n0, req, faults)[j])
      && (forall j :: 0 <= j < |created| ==> created[j].row.orderIndex == j && created[j].mappedStepId == created[j].row.stepId)
      && (forall j :: 0 <= j < |created| && created[j].mappedStepId.Some? ==>
            exists s :: s in TNewSteps(db, n0, req, faults) && s.id == created[j].mappedStepId.value)
  {
    var steps := TStepsOf(req);
    var m := Remap(steps, n0, |steps|);
    var created := TAnswer(db, n0, req, faults).createdFields;
    forall j | 0 <= j < |created| && created[j].mappedStepId.Some?
      ensures exists s :: s in TNewSteps(db, n0, req, faults) && s.id == created[j].mappedStepId.value
    {
      var key := TFieldsOf(req)[j].stepId.value;
      assert key in m && m[key] == created[j].mappedStepId.value;
      RecordPointsAtRows(req.formId, steps, n0, |steps|, key);
    }
  }
}
