/** `POST /api/forms/reorder`: give the listed forms of one company the
    order_index of their list position (from 1), one update at a time,
    each guarded by the company id. */
module Reorder {
  import opened Js
  import opened Query
  import opened Store

  /** One element of the `updates` list the handler builds first. */
  datatype Update = Update(id: string, orderIndex: int, updatedAt: int)

  /** An element of `finalOrder`. */
  datatype OrderEntry = OrderEntry(id: Id, order: Option<int>)

  datatype ReorderOutcome =
    | Reordered(updatedCount: nat, finalOrder: Option<seq<OrderEntry>>)
    | UpdateFailed(status: int, error: string, failedAt: string, successCount: nat)
    | Rejected(status: int, error: string)

  /** The `updates` list: the form at position i gets order_index i + 1.
      The source stamps each element with its own `new Date()`; here they
      share the one request time `now`. */
  function Updates(formIds: seq<string>, now: int): (r: seq<Update>)
    ensures |r| == |formIds|
    ensures forall i :: 0 <= i < |r| ==> r[i] == Update(formIds[i], i + 1, now)
  {
    seq(|formIds|, i requires 0 <= i < |formIds| => Update(formIds[i], i + 1, now))
  }

  /** The forms table after the first k updates have been applied. */
  function ReorderedForms(forms: seq<FormRow>, formIds: seq<string>, company: string, now: int, k: nat): (r: seq<FormRow>)
    requires k <= |formIds|
    ensures |r| == |forms|
    ensures forall i :: 0 <= i < |forms| ==> r[i].id == forms[i].id && r[i].companyId == forms[i].companyId
  {
    if k == 0 then forms
    else SetFormOrder(ReorderedForms(forms, formIds, company, now, k - 1), formIds[k - 1], Some(company), k, Some(now))
  }

  /** The verification read: the company's forms by ascending order_index. */
  function FinalOrder(forms: seq<FormRow>, company: string): (r: seq<OrderEntry>)
  {
    var rows := SortBy(Filter(forms, FormIsOf(company)), FormOrderKey);
    seq(|rows|, i requires 0 <= i < |rows| => OrderEntry(rows[i].id, rows[i].orderIndex))
  }

  /** A body the handler accepts: `formIds` is an array and `companyId` is truthy. */
  predicate WellFormed(formIds: Option<seq<string>>, companyId: Option<string>)
  {
    formIds.Some? && Truthy(companyId)
  }

  /** The answer to an accepted request. */
  function ReorderAnswer(forms: seq<FormRow>, formIds: seq<string>, company: string, now: int, fails: seq<bool>, verifyFails: bool): ReorderOutcome
  {
    var k := FirstFailure(fails, |formIds|);
    if k < |formIds| then UpdateFailed(500, "Failed to update form order", formIds[k], k)
    else Reordered(k, if verifyFails then None else Some(FinalOrder(ReorderedForms(forms, formIds, company, now, k), company)))
  }

  /** The handler. `formIds` is None when the body's `formIds` is missing or
      not an array; `now` is the request's timestamp; entry i of `fails`
      decides the i-th update and `verifyFails` the verification read. */
  method Post(store: Store, formIds: Option<seq<string>>, companyId: Option<string>, now: int, fails: seq<bool>, verifyFails: bool)
    returns (out: ReorderOutcome)
    requires store.Valid()
    modifies store
    ensures store.Valid() && store.nextId == old(store.nextId)
    ensures !WellFormed(formIds, companyId) ==>
      out == Rejected(400, "formIds array and companyId are required") && store.db == old(store.db)
    ensures WellFormed(formIds, companyId) ==>
      var k := FirstFailure(fails, |formIds.value|);
      && store.db == old(store.db).(forms := ReorderedForms(old(store.db).forms, formIds.value, companyId.value, now, k))
      && out == ReorderAnswer(old(store.db).forms, formIds.value, companyId.value, now, fails, verifyFails)
  {
    if formIds.None? || !Truthy(companyId) {
      return Rejected(400, "formIds array and companyId are required");
    }
    var ids := formIds.value;
    var company := companyId.value;
    var successCount := RunUpdates(store, ids, company, now, fails);
    if successCount < |ids| {
      return UpdateFailed(500, "Failed to update form order", ids[successCount], successCount);
    }
    var verificationData: Option<seq<OrderEntry>> := None;
    if !verifyFails {
      verificationData := Some(FinalOrder(store.db.forms, company));
    }
    return Reordered(successCount, verificationData);
  }

  /** The handler's update loop: one guarded update per listed id, in list
      order, stopping at the first that fails. The result is the number
      that succeeded. */
  method RunUpdates(store: Store, ids: seq<string>, company: string, now: int, fails: seq<bool>) returns (successCount: nat)
    requires store.Valid()
    modifies store
    ensures store.Valid() && store.nextId == old(store.nextId)
    ensures successCount == FirstFailure(fails, |ids|)
    ensures store.db == old(store.db).(forms := ReorderedForms(old(store.db).forms, ids, company, now, successCount))
  {
    ghost var db0 := store.db;
    ghost var k := FirstFailure(fails, |ids|);
    var updates := Updates(ids, now);
    successCount := 0;
    var i := 0;
    while i < |updates|
      invariant i <= k && successCount == i
      invariant store.Valid() && store.nextId == old(store.nextId)
      invariant store.db == db0.(forms := ReorderedForms(db0.forms, ids, company, now, i))
    {
      var update := updates[i];
      assert update == Update(ids[i], i + 1, now);
      var ok := store.UpdateFormOrder(update.id, Some(company), update.orderIndex, Some(update.updatedAt), Fails(fails, i));
      if !ok {
        return;
      }
      FirstFailureStep(fails, |ids|, i);
      successCount := successCount + 1;
      i := i + 1;
    }
  }

  // ---------------------------------------------------------------------
  // Properties

  /** Tenant isolation: a row of another company is never changed, whatever
      ids the request lists. */
  lemma {:induction false} OtherCompaniesUnchanged(forms: seq<FormRow>, formIds: seq<string>, company: string, now: int, k: nat)
    requires k <= |formIds|
    ensures forall i :: 0 <= i < |forms| && forms[i].companyId != company ==>
      ReorderedForms(forms, formIds, company, now, k)[i] == forms[i]
  {
    if k > 0 {
      OtherCompaniesUnchanged(forms, formIds, company, now, k - 1);
    }
  }

  /** A row whose id is not among the first k listed ids is unchanged. */
  lemma {:induction false} UnlistedUnchanged(forms: seq<FormRow>, formIds: seq<string>, company: string, now: int, k: nat)
    requires k <= |formIds|
    ensures forall i :: 0 <= i < |forms| && forms[i].id !in formIds[..k] ==>
      ReorderedForms(forms, formIds, company, now, k)[i] == forms[i]
  {
    if k > 0 {
      UnlistedUnchanged(forms, formIds, company, now, k - 1);
      forall i | 0 <= i < |forms| && forms[i].id !in formIds[..k]
        ensures ReorderedForms(forms, formIds, company, now, k)[i] == forms[i]
      {
        assert formIds[..k] == formIds[..k - 1] + [formIds[k - 1]];
      }
    }
  }

  /** A row of the company listed at position p, and at no later position
      among the first k, ends with order_index p + 1 and the request's
      timestamp: when an id is listed twice, its last position wins. */
  lemma {:induction false} LastPositionWins(forms: seq<FormRow>, formIds: seq<string>, company: string, now: int, k: nat, i: nat, p: nat)
    requires p < k <= |formIds| && i < |forms|
    requires forms[i].id == formIds[p] && forms[i].companyId == company
    requires forall q :: p < q < k ==> formIds[q] != formIds[p]
    ensures ReorderedForms(forms, formIds, company, now, k)[i].orderIndex == Some(p + 1)
    ensures ReorderedForms(forms, formIds, company, now, k)[i].updatedAt == now
  {
    if p < k - 1 {
      LastPositionWins(forms, formIds, company, now, k - 1, i, p);
    }
  }

  /** Only the order_index and updated_at columns change. */
  lemma {:induction false} OnlyOrderColumnsChange(forms: seq<FormRow>, formIds: seq<string>, company: string, now: int, k: nat)
    requires k <= |formIds|
    ensures forall i :: 0 <= i < |forms| ==>
      ReorderedForms(forms, formIds, company, now, k)[i]
        == forms[i].(orderIndex := ReorderedForms(forms, formIds, company, now, k)[i].orderIndex,
                     updatedAt := ReorderedForms(forms, formIds, company, now, k)[i].updatedAt)
  {
    if k > 0 {
      OnlyOrderColumnsChange(forms, formIds, company, now, k - 1);
    }
  }

  /** The outcome of an accepted request: success reports every listed id
      as updated, matched or not; a failure names the first failing id
      and the number of updates before it, which stay applied. */
  lemma OutcomeCounts(forms: seq<FormRow>, formIds: seq<string>, company: string, now: int, fails: seq<bool>, verifyFails: bool)
    ensures var out := ReorderAnswer(forms, formIds, company, now, fails, verifyFails);
      && (out.Reordered? <==> forall i :: 0 <= i < |formIds| ==> !Fails(fails, i))
      && (out.Reordered? ==> out.updatedCount == |formIds| && (out.finalOrder.None? <==> verifyFails))
      && (out.UpdateFailed? ==> exists k :: 0 <= k < |formIds| && Fails(fails, k) && out.failedAt == formIds[k]
                                   && out.successCount == k && (forall j :: 0 <= j < k ==> !Fails(fails, j)))
  {
  }

  /** The verification read lists exactly the company's forms, in ascending
      order_index with unset ones last. */
  lemma FinalOrderIsTheCompanysForms(forms: seq<FormRow>, company: string)
    ensures var r := FinalOrder(forms, company);
      && (forall e :: e in r ==> exists f :: f in forms && f.companyId == company && e == OrderEntry(f.id, f.orderIndex))
      && (forall f :: f in forms && f.companyId == company ==> OrderEntry(f.id, f.orderIndex) in r)
      && (forall i, j :: 0 <= i < j < |r| && r[j].order.Some? ==> r[i].order.Some? && r[i].order.value <= r[j].order.value)
  {
    var rows := SortBy(Filter(forms, FormIsOf(company)), FormOrderKey);
    var r := FinalOrder(forms, company);
    SortByMembers(Filter(forms, FormIsOf(company)), FormOrderKey);
    forall e | e in r
      ensures exists f :: f in forms && f.companyId == company && e == OrderEntry(f.id, f.orderIndex)
    {
      var i :| 0 <= i < |r| && r[i] == e;
      assert rows[i] in Filter(forms, FormIsOf(company));
    }
    forall f | f in forms && f.companyId == company
      ensures OrderEntry(f.id, f.orderIndex) in r
    {
      assert f in Filter(forms, FormIsOf(company));
      var i :| 0 <= i < |rows| && rows[i] == f;
      assert r[i] == OrderEntry(f.id, f.orderIndex);
    }
    forall i, j | 0 <= i < j < |r| && r[j].order.Some?
      ensures r[i].order.Some? && r[i].order.value <= r[j].order.value
    {
      assert KeyLe(FormOrderKey(rows[i]), FormOrderKey(rows[j]));
    }
  }
}
