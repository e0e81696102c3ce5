/** `POST /api/forms/submit`: one response row, then one data row per
    answered field, each value rendered with `String(value)`. */
module Submit {
  import opened Js
  import opened Store

  /** The parts of the request the handler reads. `responses` is the
      body's object of answers in key order; the header fields are None
      when the header is absent. */
  datatype SubmitRequest = SubmitRequest(
    formId: Option<string>,
    responses: Option<Entries<JsValue>>,
    submittedBy: Option<string>,
    forwardedFor: Option<string>,
    realIp: Option<string>,
    userAgent: Option<string>)

  datatype SubmitOutcome = Submitted(responseId: Id) | SubmitFailed(status: int, error: string)

  /** Which of the two inserts fail. */
  datatype SubmitFaults = SubmitFaults(responseInsert: bool, dataInsert: bool)

  predicate Accepted(req: SubmitRequest)
  {
    Truthy(req.formId) && req.responses.Some? && Truthy(req.submittedBy)
  }

  /** `x-forwarded-for`, else `x-real-ip`, else the loopback address. */
  function ClientIp(req: SubmitRequest): string
  {
    OrElse(req.forwardedFor, OrElse(req.realIp, "127.0.0.1"))
  }

  /** The response row; `now` is the database's default `submitted_at`. */
  function ResponseRowOf(req: SubmitRequest, now: int): ResponseRow
    requires Accepted(req)
  {
    ResponseRow("", req.formId.value, req.submittedBy.value, ClientIp(req), OrElse(req.userAgent, ""), now)
  }

  /** One data row per property of `responses`, in key order. */
  function DataRows(responseId: Id, responses: Entries<JsValue>): (r: seq<ResponseDataRow>)
    ensures |r| == |responses|
  {
    seq(|responses|, i requires 0 <= i < |responses| =>
      ResponseDataRow("", responseId, responses[i].0, ToJsString(responses[i].1)))
  }

  /** The tables after an accepted request, when the store's next id was the n0-th. */
  function SubmitWritten(db: Db, n0: nat, req: SubmitRequest, now: int, faults: SubmitFaults): Db
    requires Accepted(req)
  {
    var response := ResponseRowOf(req, now).(id := IdOf(n0));
    var rows := DataRows(IdOf(n0), req.responses.value);
    if faults.responseInsert then db
    else if |rows| == 0 || faults.dataInsert then db.(responses := db.responses + [response])
    else db.(responses := db.responses + [response], responseData := db.responseData + Numbered(rows, n0 + 1))
  }

  function SubmitAnswer(n0: nat, req: SubmitRequest, faults: SubmitFaults): SubmitOutcome
    requires Accepted(req)
  {
    if faults.responseInsert then SubmitFailed(500, "Failed to create form response")
    else if |req.responses.value| > 0 && faults.dataInsert then SubmitFailed(500, "Failed to save form responses")
    else Submitted(IdOf(n0))
  }

  method Post(store: Store, req: SubmitRequest, now: int, faults: SubmitFaults) returns (out: SubmitOutcome)
    requires store.Valid()
    modifies store
    ensures store.Valid()
    ensures !Accepted(req) ==> out == SubmitFailed(400, "Missing required fields") && store.db == old(store.db)
    ensures Accepted(req) ==> && store.db == SubmitWritten(old(store.db), old(store.nextId), req, now, faults)
                              && out == SubmitAnswer(old(store.nextId), req, faults)
  {
    if !Truthy(req.formId) || req.responses.None? || !Truthy(req.submittedBy) {
      return SubmitFailed(400, "Missing required fields");
    }
    var ipAddress := OrElse(req.forwardedFor, OrElse(req.realIp, "127.0.0.1"));
    var userAgent := OrElse(req.userAgent, "");
    var formResponse := store.InsertResponse(ResponseRow("", req.formId.value, req.submittedBy.value, ipAddress, userAgent, now),
                                             faults.responseInsert);
    if formResponse.None? {
      return SubmitFailed(500, "Failed to create form response");
    }
    var responseDataEntries := DataRows(formResponse.value.id, req.responses.value);
    if |responseDataEntries| > 0 {
      var ok := store.InsertResponseData(responseDataEntries, faults.dataInsert);
      if !ok {
        return SubmitFailed(500, "Failed to save form responses");
      }
    }
    return Submitted(formResponse.value.id);
  }

  // ---------------------------------------------------------------------
  // Properties

  /** Every answered key gets a data row holding `String` of its answer, and
      every data row is for an answered key. */
  lemma DataRowsHoldTheAnswers(responseId: Id, responses: Entries<JsValue>)
    requires UniqueKeys(responses)
    ensures forall k :: HasKey(responses, k) ==>
      exists r :: r in DataRows(responseId, responses) && r.fieldId == k && r.value == ToJsString(Get(responses, k).value)
    ensures forall r :: r in DataRows(responseId, responses) ==>
      r.responseId == responseId && HasKey(responses, r.fieldId) && r.value == ToJsString(Get(responses, r.fieldId).value)
  {
    var rows := DataRows(responseId, responses);
    forall k | HasKey(responses, k)
      ensures exists r :: r in rows && r.fieldId == k && r.value == ToJsString(Get(responses, k).value)
    {
      var i :| 0 <= i < |responses| && responses[i].0 == k;
      GetAt(responses, k, i);
      assert rows[i] in rows;
    }
    forall r | r in rows
      ensures r.responseId == responseId && HasKey(responses, r.fieldId) && r.value == ToJsString(Get(responses, r.fieldId).value)
    {
      var i :| 0 <= i < |rows| && rows[i] == r;
      GetAt(responses, r.fieldId, i);
    }
  }

  /** A response row is written exactly when the request is accepted and its
      insert succeeds; data rows only after it, and never for an empty
      `responses`, whose data fault therefore cannot matter. */
  lemma WritesFollowTheResponseRow(db: Db, n0: nat, req: SubmitRequest, now: int, faults: SubmitFaults)
    requires Accepted(req)
    ensures var db' := SubmitWritten(db, n0, req, now, faults);
      && (|db'.responses| == |db.responses| + 1 <==> !faults.responseInsert)
      && (|db'.responseData| > |db.responseData| ==> |db'.responses| == |db.responses| + 1)
      && db'.forms == db.forms && db'.steps == db.steps && db'.fields == db.fields
    ensures |req.responses.value| == 0 ==>
      && SubmitWritten(db, n0, req, now, faults) == SubmitWritten(db, n0, req, now, faults.(dataInsert := !faults.dataInsert))
      && SubmitAnswer(n0, req, faults) == SubmitAnswer(n0, req, faults.(dataInsert := !faults.dataInsert))
  {
  }

  /** On success the reported id is that of the response row just written,
      and every data row written refers to it. */
  lemma SuccessReportsTheNewRow(db: Db, n0: nat, req: SubmitRequest, now: int, faults: SubmitFaults)
    requires Accepted(req) && SubmitAnswer(n0, req, faults).Submitted?
    ensures var db' := SubmitWritten(db, n0, req, now, faults);
      && db'.responses == db.responses + [ResponseRowOf(req, now).(id := SubmitAnswer(n0, req, faults).responseId)]
      && |db'.responseData| == |db.responseData| + |req.responses.value|
      && forall r :: r in db'.responseData[|db.responseData|..] ==> r.responseId == SubmitAnswer(n0, req, faults).responseId
  {
    var db' := SubmitWritten(db, n0, req, now, faults);
    if |req.responses.value| > 0 {
      assert db'.responseData[|db.responseData|..] == Numbered(DataRows(IdOf(n0), req.responses.value), n0 + 1);
    } else {
      assert db'.responseData[|db.responseData|..] == [];
    }
  }
}
