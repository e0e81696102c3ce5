/** The all-leads view: the responses of every form of a company gathered
    into one list, each tagged with its form's title, and the list shown
    after the form selector and the search box are applied. */
module AllLeads {
  import opened Js
  import opened Query
  import opened Store

  /** One answer as the responses endpoint lists it. */
  datatype LeadItem = LeadItem(fieldId: Id, fieldLabel: string, fieldType: string, value: string)

  /** A response as the endpoint `/api/forms/{id}/responses` returns it. */
  datatype FetchedResponse = FetchedResponse(
    id: Id,
    formId: Id,
    submittedBy: string,
    submittedAt: string,
    ipAddress: string,
    userAgent: string,
    items: seq<LeadItem>)

  /** A response in the view: the fetched object spread, with `form_title`. */
  datatype Lead = Lead(
    id: Id,
    formId: Id,
    formTitle: string,
    submittedBy: string,
    submittedAt: string,
    ipAddress: string,
    userAgent: string,
    items: seq<LeadItem>)

  /** What fetching one form's responses came to: the request or the body
      parse threw, the status was not ok, or the body's `responses`. */
  datatype FetchResult = Threw | NotOk | Ok(responses: seq<FetchedResponse>)

  /** `{ ...resp, form_title: form.title }`. */
  function Tag(resp: FetchedResponse, title: string): (lead: Lead)
    ensures lead.formTitle == title
    ensures lead.id == resp.id && lead.formId == resp.formId && lead.submittedBy == resp.submittedBy
    ensures lead.submittedAt == resp.submittedAt && lead.ipAddress == resp.ipAddress
    ensures lead.userAgent == resp.userAgent && lead.items == resp.items
  {
    Lead(resp.id, resp.formId, title, resp.submittedBy, resp.submittedAt, resp.ipAddress, resp.userAgent, resp.items)
  }

  /** The leads one form contributes: its responses tagged with its title
      when the fetch was ok, nothing otherwise. */
  function Contribution(form: FormRow, result: FetchResult): (r: seq<Lead>)
    ensures !result.Ok? ==> r == []
    ensures result.Ok? ==> |r| == |result.responses|
    ensures result.Ok? ==> forall j :: 0 <= j < |r| ==> r[j] == Tag(result.responses[j], form.title)
  {
    if result.Ok? then seq(|result.responses|, j requires 0 <= j < |result.responses| => Tag(result.responses[j], form.title))
    else []
  }

  /** Every form's contribution, in form order. */
  function Gathered(forms: seq<FormRow>, fetch: Id -> FetchResult): seq<Lead>
    decreases |forms|
  {
    if |forms| == 0 then []
    else Gathered(forms[..|forms| - 1], fetch) + Contribution(forms[|forms| - 1], fetch(forms[|forms| - 1].id))
  }

  lemma GatheredSnoc(forms: seq<FormRow>, i: int, fetch: Id -> FetchResult)
    requires 0 <= i < |forms|
    ensures Gathered(forms[..i + 1], fetch) == Gathered(forms[..i], fetch) + Contribution(forms[i], fetch(forms[i].id))
  {
    assert forms[..i + 1][..i] == forms[..i];
  }

  /** Gathering two lists of forms one after the other. */
  lemma {:induction false} GatheredAppend(a: seq<FormRow>, b: seq<FormRow>, fetch: Id -> FetchResult)
    ensures Gathered(a + b, fetch) == Gathered(a, fetch) + Gathered(b, fetch)
    decreases |b|
  {
    if |b| == 0 {
      assert a + b == a;
    } else {
      var b' := b[..|b| - 1];
      var last := b[|b| - 1];
      var c := Contribution(last, fetch(last.id));
      assert (a + b)[..|a + b| - 1] == a + b';
      assert (a + b)[|a + b| - 1] == last;
      assert Gathered(a + b, fetch) == Gathered(a + b', fetch) + c;
      assert Gathered(b, fetch) == Gathered(b', fetch) + c;
      GatheredAppend(a, b', fetch);
    }
  }

  /** A lead is gathered exactly when it is some response of some form whose
      fetch was ok, tagged with that form's title. */
  lemma {:induction false} GatheredMembers(forms: seq<FormRow>, fetch: Id -> FetchResult, x: Lead)
    ensures x in Gathered(forms, fetch) <==>
      exists i :: 0 <= i < |forms| && x in Contribution(forms[i], fetch(forms[i].id))
    decreases |forms|
  {
    if |forms| > 0 {
      var n := |forms|;
      var p := forms[..n - 1];
      GatheredMembers(p, fetch, x);
      assert forall i :: 0 <= i < |p| ==> p[i] == forms[i];
      if x in Gathered(forms, fetch) {
        if x in Gathered(p, fetch) {
          var i :| 0 <= i < |p| && x in Contribution(p[i], fetch(p[i].id));
          assert 0 <= i < |forms| && x in Contribution(forms[i], fetch(forms[i].id));
        } else {
          assert x in Contribution(forms[n - 1], fetch(forms[n - 1].id));
        }
      }
      if exists i :: 0 <= i < |forms| && x in Contribution(forms[i], fetch(forms[i].id)) {
        var i :| 0 <= i < |forms| && x in Contribution(forms[i], fetch(forms[i].id));
        if i < n - 1 {
          assert x in Contribution(p[i], fetch(p[i].id));
        }
      }
    }
  }

  /** A lead is gathered exactly when it is response j of form i's ok
      fetch, tagged with form i's title. */
  lemma GatheredLeadsAreTaggedResponses(forms: seq<FormRow>, fetch: Id -> FetchResult, x: Lead)
    ensures x in Gathered(forms, fetch) <==>
      exists i, j :: 0 <= i < |forms| && fetch(forms[i].id).Ok? && 0 <= j < |fetch(forms[i].id).responses|
        && x == Tag(fetch(forms[i].id).responses[j], forms[i].title)
  {
    GatheredMembers(forms, fetch, x);
    if x in Gathered(forms, fetch) {
      var i :| 0 <= i < |forms| && x in Contribution(forms[i], fetch(forms[i].id));
      var j :| 0 <= j < |Contribution(forms[i], fetch(forms[i].id))| && Contribution(forms[i], fetch(forms[i].id))[j] == x;
      assert x == Tag(fetch(forms[i].id).responses[j], forms[i].title);
    }
    if exists i, j :: 0 <= i < |forms| && fetch(forms[i].id).Ok? && 0 <= j < |fetch(forms[i].id).responses|
        && x == Tag(fetch(forms[i].id).responses[j], forms[i].title) {
      var i, j :| 0 <= i < |forms| && fetch(forms[i].id).Ok? && 0 <= j < |fetch(forms[i].id).responses|
        && x == Tag(fetch(forms[i].id).responses[j], forms[i].title);
      assert Contribution(forms[i], fetch(forms[i].id))[j] == x;
    }
  }

  /** A form whose fetch fails or is not ok leaves the list as if the form
      were not there. */
  lemma FailedFormContributesNothing(a: seq<FormRow>, f: FormRow, b: seq<FormRow>, fetch: Id -> FetchResult)
    requires !fetch(f.id).Ok?
    ensures Gathered(a + [f] + b, fetch) == Gathered(a + b, fetch)
  {
    GatheredAppend(a + [f], b, fetch);
    GatheredAppend(a, [f], fetch);
    GatheredAppend(a, b, fetch);
    assert [f][..0] == [];
  }

  /** `loadData`'s loop: each form's responses pushed in turn. */
  method LoadResponses(forms: seq<FormRow>, fetch: Id -> FetchResult) returns (allResponsesData: seq<Lead>)
    ensures allResponsesData == Gathered(forms, fetch)
  {
    allResponsesData := [];
    var i := 0;
    while i < |forms|
      invariant 0 <= i <= |forms|
      invariant allResponsesData == Gathered(forms[..i], fetch)
    {
      var form := forms[i];
      var response := fetch(form.id);
      if response.Ok? {
        var formResponses := seq(|response.responses|, j requires 0 <= j < |response.responses| => Tag(response.responses[j], form.title));
        allResponsesData := allResponsesData + formResponses;
      }
      GatheredSnoc(forms, i, fetch);
      i := i + 1;
    }
    assert forms[..i] == forms;
  }

  // ---------------------------------------------------------------------
  // Filtering

  /** The form selector keeps everything for "all", else one form id. */
  predicate OfSelectedForm(selectedForm: string, r: Lead)
  {
    selectedForm == "all" || r.formId == selectedForm
  }

  /** The search box matches the submitter or the form title, ignoring
      case. */
  predicate MatchesSearch(searchTerm: string, r: Lead)
  {
    var searchLower := ToLower(searchTerm);
    Includes(ToLower(r.submittedBy), searchLower) || Includes(ToLower(r.formTitle), searchLower)
  }

  /** Whether a lead is shown: an empty search term matches everything. */
  predicate Shown(searchTerm: string, selectedForm: string, r: Lead)
  {
    OfSelectedForm(selectedForm, r) && (searchTerm == "" || MatchesSearch(searchTerm, r))
  }

  /** `filterResponses`: the form filter, then the search filter, each
      applied only when set. */
  function FilterResponses(allResponses: seq<Lead>, searchTerm: string, selectedForm: string): seq<Lead>
  {
    var byForm := if selectedForm != "all" then Filter(allResponses, (r: Lead) => r.formId == selectedForm) else allResponses;
    if searchTerm != "" then Filter(byForm, r => MatchesSearch(searchTerm, r)) else byForm
  }

  /** The two filters in a row are one filter by Shown. */
  lemma FilterResponsesIsOneFilter(allResponses: seq<Lead>, searchTerm: string, selectedForm: string)
    ensures FilterResponses(allResponses, searchTerm, selectedForm) == Filter(allResponses, r => Shown(searchTerm, selectedForm, r))
  {
    var shown := (r: Lead) => Shown(searchTerm, selectedForm, r);
    var byForm := (r: Lead) => r.formId == selectedForm;
    var search := (r: Lead) => MatchesSearch(searchTerm, r);
    if selectedForm != "all" {
      if searchTerm != "" {
        FilterFilter(allResponses, byForm, search, shown);
      } else {
        FilterSame(allResponses, byForm, shown);
      }
    } else {
      if searchTerm != "" {
        FilterSame(allResponses, search, shown);
      } else {
        FilterAll(allResponses, shown);
      }
    }
  }

  /** Filters by two predicates that agree everywhere are equal. */
  lemma {:induction false} FilterSame<T>(s: seq<T>, p: T -> bool, q: T -> bool)
    requires forall x :: p(x) == q(x)
    ensures Filter(s, p) == Filter(s, q)
  {
    if |s| > 0 {
      FilterSame(s[1..], p, q);
    }
  }

  /** The shown list keeps the order of the gathered one and drops only
      leads that are not shown. */
  lemma FilterResponsesKeepsOrder(allResponses: seq<Lead>, searchTerm: string, selectedForm: string)
    ensures Subsequence(FilterResponses(allResponses, searchTerm, selectedForm), allResponses)
  {
    FilterResponsesIsOneFilter(allResponses, searchTerm, selectedForm);
    FilterIsSubsequence(allResponses, r => Shown(searchTerm, selectedForm, r));
  }

  /** A lead is shown exactly when it is gathered, of the selected form
      (any for "all") and, for a non-empty term, matches it. */
  lemma FilterResponsesMembers(allResponses: seq<Lead>, searchTerm: string, selectedForm: string, x: Lead)
    ensures x in FilterResponses(allResponses, searchTerm, selectedForm) <==>
      x in allResponses && OfSelectedForm(selectedForm, x) && (searchTerm == "" || MatchesSearch(searchTerm, x))
  {
    FilterResponsesIsOneFilter(allResponses, searchTerm, selectedForm);
    var shown := (r: Lead) => Shown(searchTerm, selectedForm, r);
    var r := Filter(allResponses, shown);
    if x in r {
      var i :| 0 <= i < |r| && r[i] == x;
      assert shown(r[i]);
    }
    if x in allResponses && Shown(searchTerm, selectedForm, x) {
      var i :| 0 <= i < |allResponses| && allResponses[i] == x;
      assert shown(allResponses[i]);
    }
  }

  lemma {:induction false} ToLowerIdempotent(s: string)
    ensures ToLower(ToLower(s)) == ToLower(s)
  {
    var t := ToLower(s);
    forall i | 0 <= i < |s| ensures ToLower(t)[i] == t[i] {
      assert 'a' as int - 'A' as int == 32;
    }
  }

  /** Terms equal up to case show the same leads. */
  lemma SearchIgnoresCase(allResponses: seq<Lead>, t1: string, t2: string, selectedForm: string)
    requires ToLower(t1) == ToLower(t2)
    ensures FilterResponses(allResponses, t1, selectedForm) == FilterResponses(allResponses, t2, selectedForm)
  {
    assert |t1| == |ToLower(t1)| == |t2|;
    FilterResponsesIsOneFilter(allResponses, t1, selectedForm);
    FilterResponsesIsOneFilter(allResponses, t2, selectedForm);
    FilterSame(allResponses, r => Shown(t1, selectedForm, r), r => Shown(t2, selectedForm, r));
  }

  /** A term and its lower-case form show the same leads. */
  lemma SearchLowerCaseTerm(allResponses: seq<Lead>, searchTerm: string, selectedForm: string)
    ensures FilterResponses(allResponses, ToLower(searchTerm), selectedForm) == FilterResponses(allResponses, searchTerm, selectedForm)
  {
    ToLowerIdempotent(searchTerm);
    SearchIgnoresCase(allResponses, ToLower(searchTerm), searchTerm, selectedForm);
  }

  // ---------------------------------------------------------------------
  // The view's state

  /** The component state `filterResponses` depends on. The effect on
      `[allResponses, searchTerm, selectedForm]` re-runs the filter after
      every change of those three, so `filteredResponses` always equals
      it. */
  class LeadsView {
    var allResponses: seq<Lead>
    var searchTerm: string
    var selectedForm: string
    var filteredResponses: seq<Lead>

    ghost predicate Valid()
      reads this
    {
      filteredResponses == FilterResponses(allResponses, searchTerm, selectedForm)
    }

    constructor ()
      ensures allResponses == [] && searchTerm == "" && selectedForm == "all"
      ensures filteredResponses == [] && Valid()
    {
      allResponses := [];
      searchTerm := "";
      selectedForm := "all";
      filteredResponses := [];
    }

    /** The effect: `filterResponses()`. */
    method RunFilter()
      modifies this`filteredResponses
      ensures filteredResponses == FilterResponses(allResponses, searchTerm, selectedForm)
    {
      var filtered := allResponses;
      var form := selectedForm;
      var term := searchTerm;
      if form != "all" {
        filtered := Filter(filtered, (r: Lead) => r.formId == form);
      }
      if term != "" {
        filtered := Filter(filtered, r => MatchesSearch(term, r));
      }
      filteredResponses := filtered;
    }

    /** `loadData` once the form list is in: gather, then re-filter. */
    method LoadData(forms: seq<FormRow>, fetch: Id -> FetchResult)
      modifies this
      ensures allResponses == Gathered(forms, fetch)
      ensures searchTerm == old(searchTerm) && selectedForm == old(selectedForm)
      ensures Valid()
    {
      allResponses := LoadResponses(forms, fetch);
      RunFilter();
    }

    method SetSearchTerm(term: string)
      modifies this
      ensures searchTerm == term
      ensures allResponses == old(allResponses) && selectedForm == old(selectedForm)
      ensures Valid()
    {
      searchTerm := term;
      RunFilter();
    }

    method SetSelectedForm(formId: string)
      modifies this
      ensures selectedForm == formId
      ensures allResponses == old(allResponses) && searchTerm == old(searchTerm)
      ensures Valid()
    {
      selectedForm := formId;
      RunFilter();
    }
  }
}
