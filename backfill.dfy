/** `POST /api/debug/add-order-field`: number the forms that have no
    order_index (null or 0) company by company, newest first, from 1. */
module Backfill {
  import opened Js
  import opened Query
  import opened Store

  datatype BackfillOutcome =
    | Initialized(updateCount: nat, message: string)
    | Failed(status: int, error: string)

  /** One update the nested loops issue: `order_index` for one form id. */
  datatype Planned = Planned(id: Id, orderIndex: int)

  /** `.or('order_index.is.null,order_index.eq.0')`. */
  function NeedsIndex(f: FormRow): bool
  {
    f.orderIndex.None? || f.orderIndex == Some(0)
  }

  /** Descending `created_at` as an ascending key. */
  function NewestFirst(f: FormRow): Key { At(-f.createdAt) }

  /** The fetch: the forms needing an index, newest first. */
  function Selected(forms: seq<FormRow>): seq<FormRow>
  {
    SortBy(Filter(forms, NeedsIndex), NewestFirst)
  }

  /** One step of the `reduce`: append the form to its company's array,
      creating the array (as a new, last property) on first sight. */
  function AddToGroup(acc: Entries<seq<FormRow>>, f: FormRow): Entries<seq<FormRow>>
  {
    Put(acc, f.companyId, GetOr(Get(acc, f.companyId), []) + [f])
  }

  /** The `reduce` over the fetched rows. */
  function Grouped(rows: seq<FormRow>): Entries<seq<FormRow>>
  {
    if |rows| == 0 then [] else AddToGroup(Grouped(rows[..|rows| - 1]), rows[|rows| - 1])
  }

  /** The updates for one company's array: sorted newest first, the i-th gets i + 1. */
  function Numbering(group: seq<FormRow>): (r: seq<Planned>)
    ensures |r| == |group|
  {
    Ranks(SortBy(group, NewestFirst))
  }

  /** The i-th of the sorted forms gets order_index i + 1. */
  function Ranks(sorted: seq<FormRow>): (r: seq<Planned>)
    ensures |r| == |sorted|
  {
    seq(|sorted|, i requires 0 <= i < |sorted| => Planned(sorted[i].id, i + 1))
  }

  /** All updates, company by company in property order. */
  function Plan(groups: Entries<seq<FormRow>>): seq<Planned>
  {
    if |groups| == 0 then [] else Plan(groups[..|groups| - 1]) + Numbering(groups[|groups| - 1].1)
  }

  /** The forms table after the given updates, the j-th of which fails
      exactly when `Fails(fails, j)`. No company guard applies. */
  function Apply(forms: seq<FormRow>, ups: seq<Planned>, fails: seq<bool>): (r: seq<FormRow>)
    ensures |r| == |forms|
  {
    if |ups| == 0 then forms
    else
      var prev := Apply(forms, ups[..|ups| - 1], fails);
      var u := ups[|ups| - 1];
      if Fails(fails, |ups| - 1) then prev else SetFormOrder(prev, u.id, None, u.orderIndex, None)
  }

  lemma ApplySnoc(forms: seq<FormRow>, ups: seq<Planned>, u: Planned, fails: seq<bool>)
    ensures Apply(forms, ups + [u], fails)
      == if Fails(fails, |ups|) then Apply(forms, ups, fails) else SetFormOrder(Apply(forms, ups, fails), u.id, None, u.orderIndex, None)
  {
    assert (ups + [u])[..|ups|] == ups;
  }

  /** How many of the first n updates succeed. */
  function Successes(fails: seq<bool>, n: nat): (c: nat)
    ensures c <= n
  {
    if n == 0 then 0 else Successes(fails, n - 1) + (if Fails(fails, n - 1) then 0 else 1)
  }

  function InitializedMessage(updateCount: nat): string
  {
    "order_index column already exists. Initialized " + NatToString(updateCount) + " forms."
  }

  /** The grouping `reduce` (lines 34-38). */
  method GroupByCompany(rows: seq<FormRow>) returns (acc: Entries<seq<FormRow>>)
    ensures acc == Grouped(rows)
  {
    acc := [];
    var k := 0;
    while k < |rows|
      invariant k <= |rows| && acc == Grouped(rows[..k])
    {
      var form := rows[k];
      if Get(acc, form.companyId).None? {
        PutPut(acc, form.companyId, [], [form]);
        acc := Put(acc, form.companyId, []);
      }
      acc := Put(acc, form.companyId, Get(acc, form.companyId).value + [form]);
      assert rows[..k + 1][..k] == rows[..k];
      k := k + 1;
    }
    assert rows[..k] == rows;
  }

  /** The handler. `probeFails` is the outcome of the column probe,
      `fetchFails` that of the fetch, and entry j of `fails` decides the
      j-th update. */
  method Post(store: Store, probeFails: bool, fetchFails: bool, fails: seq<bool>) returns (out: BackfillOutcome)
    requires store.Valid()
    modifies store
    ensures store.Valid() && store.nextId == old(store.nextId)
    ensures probeFails ==> out == Failed(400, "Column migration required") && store.db == old(store.db)
    ensures !probeFails && fetchFails ==> out == Failed(500, "Failed to fetch forms for initialization") && store.db == old(store.db)
    ensures !probeFails && !fetchFails ==>
      var plan := Plan(Grouped(Selected(old(store.db).forms)));
      && store.db == old(store.db).(forms := Apply(old(store.db).forms, plan, fails))
      && out == Initialized(Successes(fails, |plan|), InitializedMessage(Successes(fails, |plan|)))
  {
    if probeFails {
      return Failed(400, "Column migration required");
    }
    if fetchFails {
      return Failed(500, "Failed to fetch forms for initialization");
    }
    var companiesForms := GroupByCompany(Selected(store.db.forms));
    var updateCount := NumberAll(store, companiesForms, fails);
    return Initialized(updateCount, "order_index column already exists. Initialized " + NatToString(updateCount) + " forms.");
  }

  /** The outer loop (lines 41-56): every company's array in property
      order. The result is the number of updates that succeeded. */
  method NumberAll(store: Store, companiesForms: Entries<seq<FormRow>>, fails: seq<bool>) returns (updateCount: nat)
    requires store.Valid()
    modifies store
    ensures store.Valid() && store.nextId == old(store.nextId)
    ensures updateCount == Successes(fails, |Plan(companiesForms)|)
    ensures store.db == old(store.db).(forms := Apply(old(store.db).forms, Plan(companiesForms), fails))
  {
    ghost var db0 := store.db;
    updateCount := 0;
    var attempt := 0;
    var g := 0;
    while g < |companiesForms|
      invariant g <= |companiesForms|
      invariant store.Valid() && store.nextId == old(store.nextId)
      invariant attempt == |Plan(companiesForms[..g])| && updateCount == Successes(fails, attempt)
      invariant store.db == db0.(forms := Apply(db0.forms, Plan(companiesForms[..g]), fails))
    {
      attempt, updateCount := NumberCompany(store, companiesForms[g].1, fails, attempt, updateCount, db0, Plan(companiesForms[..g]));
      assert companiesForms[..g + 1][..g] == companiesForms[..g];
      g := g + 1;
    }
    assert companiesForms[..g] == companiesForms;
  }

  /** The sort and the inner loop (lines 42-55) for one company's array. */
  method NumberCompany(store: Store, forms: seq<FormRow>, fails: seq<bool>, attempt0: nat, updateCount0: nat, ghost db0: Db, ghost done: seq<Planned>)
    returns (attempt: nat, updateCount: nat)
    requires store.Valid() && attempt0 == |done| && updateCount0 == Successes(fails, attempt0)
    requires store.db == db0.(forms := Apply(db0.forms, done, fails))
    modifies store
    ensures store.Valid() && store.nextId == old(store.nextId)
    ensures attempt == |done| + |forms| && updateCount == Successes(fails, attempt)
    ensures store.db == db0.(forms := Apply(db0.forms, done + Numbering(forms), fails))
  {
    var sortedForms := SortBy(forms, NewestFirst);
    attempt, updateCount := NumberSorted(store, sortedForms, fails, attempt0, updateCount0, db0, done);
  }

  /** The inner loop: the i-th of the sorted forms gets order_index i + 1,
      counting the updates that succeed. `done` are the updates issued
      before. */
  method NumberSorted(store: Store, sortedForms: seq<FormRow>, fails: seq<bool>, attempt0: nat, updateCount0: nat, ghost db0: Db, ghost done: seq<Planned>)
    returns (attempt: nat, updateCount: nat)
    requires store.Valid() && attempt0 == |done| && updateCount0 == Successes(fails, attempt0)
    requires store.db == db0.(forms := Apply(db0.forms, done, fails))
    modifies store
    ensures store.Valid() && store.nextId == old(store.nextId)
    ensures attempt == |done| + |sortedForms| && updateCount == Successes(fails, attempt)
    ensures store.db == db0.(forms := Apply(db0.forms, done + Ranks(sortedForms), fails))
  {
    attempt, updateCount := attempt0, updateCount0;
    ghost var plan := Ranks(sortedForms);
    var i := 0;
    ghost var ups := done;
    assert done + plan[..0] == done;
    while i < |sortedForms|
      invariant i <= |sortedForms|
      invariant store.Valid() && store.nextId == old(store.nextId)
      invariant updateCount == Successes(fails, attempt)
      invariant ups == done + plan[..i] && |ups| == attempt
      invariant store.db == db0.(forms := Apply(db0.forms, ups, fails))
    {
      var u := Planned(sortedForms[i].id, i + 1);
      assert plan[i] == u;
      AppendPrefixSnoc(done, plan, i);
      updateCount := UpdateOne(store, u, fails, attempt, updateCount, db0, ups);
      ups := ups + [u];
      attempt := attempt + 1;
      i := i + 1;
    }
    assert plan[..i] == plan;
  }

  /** One update of the inner loop, the attempt-th of the request, and the
      count of successful updates after it. */
  method UpdateOne(store: Store, u: Planned, fails: seq<bool>, attempt: nat, updateCount0: nat, ghost db0: Db, ghost ups: seq<Planned>)
    returns (updateCount: nat)
    requires store.Valid() && |ups| == attempt && updateCount0 == Successes(fails, attempt)
    requires store.db == db0.(forms := Apply(db0.forms, ups, fails))
    modifies store
    ensures store.Valid() && store.nextId == old(store.nextId)
    ensures updateCount == Successes(fails, attempt + 1)
    ensures store.db == db0.(forms := Apply(db0.forms, ups + [u], fails))
  {
    ApplySnoc(db0.forms, ups, u, fails);
    var ok := store.UpdateFormOrder(u.id, None, u.orderIndex, None, Fails(fails, attempt));
    updateCount := updateCount0;
    if ok {
      updateCount := updateCount + 1;
    }
  }

  lemma AppendPrefixSnoc<T>(d: seq<T>, s: seq<T>, i: int)
    requires 0 <= i < |s|
    ensures d + s[..i + 1] == (d + s[..i]) + [s[i]]
  {
    assert s[..i + 1] == s[..i] + [s[i]];
  }

  // ---------------------------------------------------------------------
  // Properties

  predicate HasCompany(rows: seq<FormRow>, c: string)
  {
    exists i :: 0 <= i < |rows| && rows[i].companyId == c
  }

  lemma HasCompanySnoc(prev: seq<FormRow>, f: FormRow, c: string)
    ensures HasCompany(prev + [f], c) <==> HasCompany(prev, c) || f.companyId == c
  {
    var rows := prev + [f];
    assert rows[|prev|] == f;
    if HasCompany(prev, c) {
      var i :| 0 <= i < |prev| && prev[i].companyId == c;
      assert rows[i].companyId == c;
    }
    if HasCompany(rows, c) && f.companyId != c {
      var i :| 0 <= i < |rows| && rows[i].companyId == c;
      assert prev[i].companyId == c;
    }
  }

  /** One step of the grouping, seen from one company. */
  lemma GroupStep(prev: seq<FormRow>, f: FormRow, c: string)
    requires UniqueKeys(Grouped(prev))
    requires Get(Grouped(prev), c) == if HasCompany(prev, c) then Some(Filter(prev, FormIsOf(c))) else None
    ensures Get(Grouped(prev + [f]), c) == if HasCompany(prev + [f], c) then Some(Filter(prev + [f], FormIsOf(c))) else None
  {
    var rows := prev + [f];
    var g := Grouped(prev);
    assert rows[..|rows| - 1] == prev;
    assert Grouped(rows) == AddToGroup(g, f);
    GetPut(g, f.companyId, GetOr(Get(g, f.companyId), []) + [f], c);
    FilterSnoc(prev, f, FormIsOf(c));
    HasCompanySnoc(prev, f, c);
    assert FormIsOf(c)(f) == (f.companyId == c);
    if c == f.companyId {
      if !HasCompany(prev, c) {
        FilterNone(prev, FormIsOf(c));
      }
      assert GetOr(Get(g, c), []) == Filter(prev, FormIsOf(c));
      assert Get(Grouped(rows), c) == Some(Filter(prev, FormIsOf(c)) + [f]);
    } else {
      assert Get(Grouped(rows), c) == Get(g, c);
      assert Filter(rows, FormIsOf(c)) == Filter(prev, FormIsOf(c));
    }
  }

  /** The grouping keeps one property per company, and the array of a
      company holds exactly its rows, in fetch order. */
  lemma {:induction false} GroupedIsFilter(rows: seq<FormRow>)
    ensures UniqueKeys(Grouped(rows))
    ensures forall c :: Get(Grouped(rows), c) == if HasCompany(rows, c) then Some(Filter(rows, FormIsOf(c))) else None
  {
    if |rows| > 0 {
      var prev := rows[..|rows| - 1];
      var f := rows[|rows| - 1];
      GroupedIsFilter(prev);
      assert rows == prev + [f];
      GetPut(Grouped(prev), f.companyId, GetOr(Get(Grouped(prev), f.companyId), []) + [f], f.companyId);
      forall c
        ensures Get(Grouped(rows), c) == if HasCompany(rows, c) then Some(Filter(rows, FormIsOf(c))) else None
      {
        GroupStep(prev, f, c);
      }
    }
  }

  /** Within a company the newest form is numbered 1, the next 2, and so
      on up to the size of the group, which the sort only reorders. */
  lemma NumberingRanksByAge(group: seq<FormRow>)
    ensures var sorted := SortBy(group, NewestFirst);
      && multiset(sorted) == multiset(group)
      && (forall i, j :: 0 <= i < j < |sorted| ==> sorted[i].createdAt >= sorted[j].createdAt)
      && (forall i :: 0 <= i < |group| ==> Numbering(group)[i] == Planned(sorted[i].id, i + 1))
  {
    var sorted := SortBy(group, NewestFirst);
    forall i, j | 0 <= i < j < |sorted|
      ensures sorted[i].createdAt >= sorted[j].createdAt
    {
      assert KeyLe(NewestFirst(sorted[i]), NewestFirst(sorted[j]));
    }
  }

  /** A form whose id no update names is left as it was. */
  lemma {:induction false} UnplannedUnchanged(forms: seq<FormRow>, ups: seq<Planned>, fails: seq<bool>, i: nat)
    requires i < |forms| && forall j :: 0 <= j < |ups| ==> ups[j].id != forms[i].id
    ensures Apply(forms, ups, fails)[i] == forms[i]
  {
    if |ups| > 0 {
      UnplannedUnchanged(forms, ups[..|ups| - 1], fails, i);
      assert Apply(forms, ups[..|ups| - 1], fails)[i] == forms[i];
    }
  }

  /** The updates set order_index and nothing else: `updated_at` is not
      part of this update. */
  lemma {:induction false} ApplyOnlyOrder(forms: seq<FormRow>, ups: seq<Planned>, fails: seq<bool>, i: nat)
    requires i < |forms|
    ensures Apply(forms, ups, fails)[i] == forms[i].(orderIndex := Apply(forms, ups, fails)[i].orderIndex)
  {
    if |ups| > 0 {
      ApplyOnlyOrder(forms, ups[..|ups| - 1], fails, i);
    }
  }

  /** A form named by a successful update at position p, and by no later
      successful update, ends with that update's order_index; every other
      column is as fetched. */
  lemma {:induction false} LastSuccessfulUpdateWins(forms: seq<FormRow>, ups: seq<Planned>, fails: seq<bool>, i: nat, p: nat)
    requires i < |forms| && p < |ups| && ups[p].id == forms[i].id && !Fails(fails, p)
    requires forall q :: p < q < |ups| && ups[q].id == forms[i].id ==> Fails(fails, q)
    ensures Apply(forms, ups, fails)[i] == forms[i].(orderIndex := Some(ups[p].orderIndex))
    decreases |ups|
  {
    var n := |ups| - 1;
    var prefix := ups[..n];
    ApplyOnlyOrder(forms, prefix, fails, i);
    if p < n {
      LastSuccessfulUpdateWins(forms, prefix, fails, i, p);
    }
  }

  /** Every update names a fetched form, that is, one that needed an index. */
  lemma {:induction false} PlanNamesFetchedForms(groups: Entries<seq<FormRow>>, rows: seq<FormRow>)
    requires forall k :: 0 <= k < |groups| ==> forall f :: f in groups[k].1 ==> f in rows
    ensures forall u :: u in Plan(groups) ==> exists f :: f in rows && f.id == u.id
  {
    if |groups| > 0 {
      var last := groups[|groups| - 1].1;
      PlanNamesFetchedForms(groups[..|groups| - 1], rows);
      SortByMembers(last, NewestFirst);
      forall u | u in Numbering(last)
        ensures exists f :: f in rows && f.id == u.id
      {
        var i :| 0 <= i < |Numbering(last)| && Numbering(last)[i] == u;
        assert SortBy(last, NewestFirst)[i] in last;
      }
    }
  }

  /** A form that did not need an index is never renumbered, provided no
      form that did shares its id. */
  lemma IndexedFormsKeepTheirIndex(forms: seq<FormRow>, fails: seq<bool>, i: nat)
    requires i < |forms|
    requires forall j :: 0 <= j < |forms| && NeedsIndex(forms[j]) ==> forms[j].id != forms[i].id
    ensures Apply(forms, Plan(Grouped(Selected(forms))), fails)[i] == forms[i]
  {
    var rows := Selected(forms);
    var groups := Grouped(rows);
    assert forall k :: 0 <= k < |groups| ==> forall f :: f in groups[k].1 ==> f in rows by {
      GroupsHoldFetchedRows(rows);
    }
    PlanNamesFetchedForms(groups, rows);
    PlanSkipsIndexed(forms, i);
    UnplannedUnchanged(forms, Plan(groups), fails, i);
  }

  /** Every array of the grouping holds fetched rows only. */
  lemma GroupsHoldFetchedRows(rows: seq<FormRow>)
    ensures var groups := Grouped(rows);
      forall k :: 0 <= k < |groups| ==> forall f :: f in groups[k].1 ==> f in rows
  {
    var groups := Grouped(rows);
    GroupedIsFilter(rows);
    forall k | 0 <= k < |groups|
      ensures forall f :: f in groups[k].1 ==> f in rows
    {
      GetAt(groups, groups[k].0, k);
      assert HasCompany(rows, groups[k].0);
    }
  }

  /** No update names a form that did not need an index, given that no
      form that did shares its id. */
  lemma PlanSkipsIndexed(forms: seq<FormRow>, i: nat)
    requires i < |forms|
    requires forall j :: 0 <= j < |forms| && NeedsIndex(forms[j]) ==> forms[j].id != forms[i].id
    requires forall u :: u in Plan(Grouped(Selected(forms))) ==> exists f :: f in Selected(forms) && f.id == u.id
    ensures forall j :: 0 <= j < |Plan(Grouped(Selected(forms)))| ==> Plan(Grouped(Selected(forms)))[j].id != forms[i].id
  {
    var plan := Plan(Grouped(Selected(forms)));
    SortByMembers(Filter(forms, NeedsIndex), NewestFirst);
    forall j | 0 <= j < |plan|
      ensures plan[j].id != forms[i].id
    {
      var u := plan[j];
      var f :| f in Selected(forms) && f.id == u.id;
      var n :| 0 <= n < |forms| && forms[n] == f;
    }
  }

  /** `updateCount` counts the successful updates only: it equals the
      number of updates exactly when none fails. */
  lemma {:induction false} CountsOnlySuccesses(fails: seq<bool>, n: nat)
    ensures Successes(fails, n) == n <==> forall j :: 0 <= j < n ==> !Fails(fails, j)
  {
    if n > 0 {
      CountsOnlySuccesses(fails, n - 1);
    }
  }
}
