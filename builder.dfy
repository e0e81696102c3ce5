/** The form builder's editing state and its handlers: the field and step
    lists, the form type, title, description and branding, and the form
    being edited. Each handler replaces one or two pieces of state with a
    value computed from the old state; that value is a function here and
    the handler a method that assigns it. */
module FormBuilder {
  import opened Js
  import opened Query
  import opened Store
  import ReadPath

  /** A field as the editor holds it. Fields loaded from a stored form carry
      no order index; fields added in the editor do. */
  datatype BuilderField = BuilderField(
    id: string,
    fieldType: string,
    fieldLabel: string,
    placeholder: string,
    content: string,
    required: bool,
    options: Option<seq<string>>,
    stepId: Option<string>,
    orderIndex: Option<int>)

  datatype BuilderStep = BuilderStep(id: string, title: string, description: string, orderIndex: int)

  datatype Branding = Branding(logoUrl: string, primaryColor: string, backgroundColor: string, fontFamily: string, useDefaultColors: bool)

  const DefaultBranding := Branding("", "#645EFF", "transparent", "Arial", true)

  /** The properties an edit may set on a field; None leaves one as it is. */
  datatype FieldPatch = FieldPatch(
    fieldLabel: Option<string>,
    placeholder: Option<string>,
    content: Option<string>,
    required: Option<bool>,
    options: Option<seq<string>>)

  datatype StepPatch = StepPatch(title: Option<string>, description: Option<string>)

  /** The ids of the fields, in field order. */
  function Ids(fields: seq<BuilderField>): seq<string>
  {
    seq(|fields|, i requires 0 <= i < |fields| => fields[i].id)
  }

  // ---------------------------------------------------------------------
  // addField

  /** The fields addField compares with: those of the same step, or, when no
      step is given, those without a step. */
  function InScope(stepId: Option<string>): BuilderField -> bool
  {
    (f: BuilderField) => if Truthy(stepId) then f.stepId == stepId else !Truthy(f.stepId)
  }

  /** `field.order_index || 0`. */
  function OrderOrZero(f: BuilderField): int
  {
    GetOr(f.orderIndex, 0)
  }

  /** `Math.max(...)` of the fields' order indexes. */
  function MaxOrder(fs: seq<BuilderField>): (m: int)
    requires |fs| > 0
    ensures forall i :: 0 <= i < |fs| ==> OrderOrZero(fs[i]) <= m
    ensures exists i :: 0 <= i < |fs| && OrderOrZero(fs[i]) == m
  {
    if |fs| == 1 then OrderOrZero(fs[0])
    else
      var m := MaxOrder(fs[1..]);
      assert forall i :: 1 <= i < |fs| ==> fs[i] == fs[1..][i - 1];
      if OrderOrZero(fs[0]) >= m then OrderOrZero(fs[0]) else m
  }

  /** One more than the largest order index in scope, or 0 for an empty scope. */
  function NextOrderIndex(fields: seq<BuilderField>, stepId: Option<string>): int
  {
    var relevant := Filter(fields, InScope(stepId));
    (if |relevant| > 0 then MaxOrder(relevant) else -1) + 1
  }

  /** The field addField creates; `now` is `Date.now()`. */
  function NewField(fieldType: string, stepId: Option<string>, orderIndex: int, now: nat): BuilderField
  {
    BuilderField(
      "field-" + NatToString(now),
      fieldType,
      if fieldType == "heading" then "Heading" else if fieldType == "paragraph" then "Paragraph" else "Field Label",
      if fieldType == "heading" || fieldType == "paragraph" then "" else "Enter placeholder...",
      if fieldType == "heading" then "Your heading text" else if fieldType == "paragraph" then "Your paragraph text" else "",
      false,
      if fieldType == "select" then Some([]) else None,
      stepId,
      Some(orderIndex))
  }

  function WithNewField(fields: seq<BuilderField>, fieldType: string, stepId: Option<string>, now: nat): seq<BuilderField>
  {
    fields + [NewField(fieldType, stepId, NextOrderIndex(fields, stepId), now)]
  }

  // ---------------------------------------------------------------------
  // handleDragEnd

  /** `fields.findIndex(field => field.id === id)`. */
  function FindIndex(fields: seq<BuilderField>, id: string): (i: int)
    ensures -1 <= i < |fields|
    ensures i >= 0 ==> fields[i].id == id && forall j :: 0 <= j < i ==> fields[j].id != id
    ensures i == -1 ==> forall j :: 0 <= j < |fields| ==> fields[j].id != id
  {
    if |fields| == 0 then -1
    else if fields[0].id == id then 0
    else
      var i := FindIndex(fields[1..], id);
      assert forall j :: 1 <= j < |fields| ==> fields[j] == fields[1..][j - 1];
      if i == -1 then -1 else i + 1
  }

  /** The position `splice` acts on for an index that may be -1: both
      `splice(-1, 1)` and an insertion at `length - 1` of the original
      length address the last position. */
  function Slot(i: int, n: nat): nat
    requires -1 <= i < n && n > 0
  {
    if i < 0 then n - 1 else i
  }

  /** Where the element that ends at position i of `ArrayMove(s, from, to)`
      came from, for i other than `to`. */
  function Source(i: nat, from: nat, to: nat): nat
    requires i != to
  {
    var j := if i < to then i else i - 1;
    if j < from then j else j + 1
  }

  /** `arrayMove(s, from, to)` of the drag-and-drop library: the element at
      `from` is taken out and inserted so that it ends at `to`. */
  function ArrayMove<T>(s: seq<T>, from: nat, to: nat): (r: seq<T>)
    requires from < |s| && to < |s|
    ensures |r| == |s| && r[to] == s[from]
    ensures forall i :: 0 <= i < |r| && i != to ==> Source(i, from, to) < |s| && r[i] == s[Source(i, from, to)]
  {
    var rest := s[..from] + s[from + 1..];
    rest[..to] + [s[from]] + rest[to..]
  }

  /** `.map((field, index) => ({ ...field, order_index: index }))`. */
  function Reindexed(fields: seq<BuilderField>): (r: seq<BuilderField>)
    ensures |r| == |fields|
  {
    seq(|fields|, i requires 0 <= i < |fields| => fields[i].(orderIndex := Some(i)))
  }

  /** A drag acts when it ends over an item other than the dragged one. */
  predicate Acts(activeId: string, overId: Option<string>)
  {
    overId.Some? && activeId != overId.value
  }

  /** The field list after a drag ends. */
  function DragEnd(fields: seq<BuilderField>, activeId: string, overId: Option<string>): seq<BuilderField>
    requires Acts(activeId, overId) ==> |fields| > 0
  {
    if Acts(activeId, overId) then
      var from := Slot(FindIndex(fields, activeId), |fields|);
      var to := Slot(FindIndex(fields, overId.value), |fields|);
      Reindexed(ArrayMove(fields, from, to))
    else fields
  }

  // ---------------------------------------------------------------------
  // Steps

  function NewStep(steps: seq<BuilderStep>, now: nat): BuilderStep
  {
    BuilderStep("step-" + NatToString(now), "Step " + NatToString(|steps| + 1), "", |steps|)
  }

  function MergeStep(s: BuilderStep, p: StepPatch): BuilderStep
  {
    s.(title := GetOr(p.title, s.title), description := GetOr(p.description, s.description))
  }

  /** `steps.map(step => step.id === stepId ? { ...step, ...updates } : step)`. */
  function StepsUpdated(steps: seq<BuilderStep>, id: string, p: StepPatch): (r: seq<BuilderStep>)
    ensures |r| == |steps|
  {
    seq(|steps|, i requires 0 <= i < |steps| => if steps[i].id == id then MergeStep(steps[i], p) else steps[i])
  }

  function StepIsNot(id: string): BuilderStep -> bool
  {
    (s: BuilderStep) => s.id != id
  }

  /** `field.step_id !== stepId`: fields without a step are kept. */
  function NotInStep(id: string): BuilderField -> bool
  {
    (f: BuilderField) => f.stepId != Some(id)
  }

  function FieldIsNot(id: string): BuilderField -> bool
  {
    (f: BuilderField) => f.id != id
  }

  // ---------------------------------------------------------------------
  // Field edits

  function MergeField(f: BuilderField, p: FieldPatch): BuilderField
  {
    f.(fieldLabel := GetOr(p.fieldLabel, f.fieldLabel),
       placeholder := GetOr(p.placeholder, f.placeholder),
       content := GetOr(p.content, f.content),
       required := GetOr(p.required, f.required),
       options := if p.options.Some? then p.options else f.options)
  }

  function FieldsUpdated(fields: seq<BuilderField>, id: string, p: FieldPatch): (r: seq<BuilderField>)
    ensures |r| == |fields|
  {
    seq(|fields|, i requires 0 <= i < |fields| => if fields[i].id == id then MergeField(fields[i], p) else fields[i])
  }

  function OptionsOf(f: BuilderField): seq<string>
  {
    GetOr(f.options, [])
  }

  function OptionsPatch(options: seq<string>): FieldPatch
  {
    FieldPatch(None, None, None, None, Some(options))
  }

  /** `newOptions[index] = value` on a copy. */
  function OptionSet(options: seq<string>, index: nat, value: string): (r: seq<string>)
    requires index < |options|
    ensures |r| == |options| && r[index] == value
    ensures forall j :: 0 <= j < |options| && j != index ==> r[j] == options[j]
  {
    options[index := value]
  }

  /** `options.filter((_, i) => i !== index)`. */
  function OptionRemoved(options: seq<string>, index: nat): (r: seq<string>)
    requires index < |options|
    ensures |r| == |options| - 1
    ensures forall j :: 0 <= j < |r| ==> r[j] == if j < index then options[j] else options[j + 1]
  {
    options[..index] + options[index + 1..]
  }

  /** `[...options, '']`. */
  function OptionAdded(options: seq<string>): seq<string>
  {
    options + [""]
  }

  // ---------------------------------------------------------------------
  // loadForm

  /** `form.form_type || 'single'`, then a multi-step form without steps is
      treated as a single-page one. */
  function LoadedType(doc: FormDoc): string
  {
    var t := if doc.form.formType != "" then doc.form.formType else "single";
    if t == "multi-step" && |doc.steps| == 0 then "single" else t
  }

  /** `settings.key || fallback`. */
  function SettingOr(settings: Settings, key: string, fallback: string): string
  {
    if key in settings && settings[key] != "" then settings[key] else fallback
  }

  function LoadedBranding(form: FormRow): Branding
  {
    Branding(
      SettingOr(form.settings, "logoUrl", ""),
      SettingOr(form.settings, "primaryColor", "#645EFF"),
      SettingOr(form.settings, "backgroundColor", "transparent"),
      SettingOr(form.settings, "fontFamily", "Arial"),
      form.useDefaultColors != Some(false))
  }

  function SessionStep(s: StepRow): BuilderStep
  {
    BuilderStep(s.id, s.title, OrElse(s.description, ""), s.orderIndex)
  }

  /** A stored field as the editor holds it: absent texts become '', a
      null or empty step id becomes undefined, and the order index is not
      carried over. */
  function SessionField(f: FieldRow): BuilderField
  {
    BuilderField(f.id, f.fieldType, OrElse(f.fieldLabel, ""), OrElse(f.placeholder, ""), OrElse(f.content, ""),
                 f.required, Some(f.options), if Truthy(f.stepId) then f.stepId else None, None)
  }

  function SessionSteps(rows: seq<StepRow>): (r: seq<BuilderStep>)
    ensures |r| == |rows|
  {
    var sorted := SortBy(rows, ReadPath.StepOrderKey);
    seq(|sorted|, i requires 0 <= i < |sorted| => SessionStep(sorted[i]))
  }

  function SessionFields(rows: seq<FieldRow>): (r: seq<BuilderField>)
    ensures |r| == |rows|
  {
    var sorted := SortBy(rows, ReadPath.FieldOrderKey);
    seq(|sorted|, i requires 0 <= i < |sorted| => SessionField(sorted[i]))
  }

  // ---------------------------------------------------------------------
  // saveForm

  datatype PayloadStep = PayloadStep(id: string, title: string, description: string, orderIndex: int)

  datatype PayloadField = PayloadField(
    fieldType: string,
    fieldLabel: string,
    placeholder: string,
    content: string,
    required: bool,
    options: Option<seq<string>>,
    stepId: Option<string>)

  datatype SavePayload = SavePayload(
    title: string,
    description: string,
    companyId: string,
    formType: string,
    useDefaultColors: bool,
    settings: Settings,
    steps: seq<PayloadStep>,
    fields: seq<PayloadField>)

  /** Whether the save updates the form being edited or creates a new one. */
  datatype SaveTarget = CreateNew | UpdateExisting(id: Id)

  /** A refused save names its notice; a sent one carries the request and,
      for a created form, the page the editor moves to. */
  datatype SaveOutcome =
    | Refused(notice: string)
    | Saved(target: SaveTarget, payload: SavePayload, redirect: Option<string>)
    | SaveFailed(target: SaveTarget, payload: SavePayload)

  function PayloadStepOf(s: BuilderStep): PayloadStep
  {
    PayloadStep(s.id, s.title, s.description, s.orderIndex)
  }

  function PayloadFieldOf(f: BuilderField): PayloadField
  {
    PayloadField(f.fieldType, f.fieldLabel, f.placeholder, f.content, f.required, f.options, f.stepId)
  }

  function Payload(title: string, description: string, companyId: string, formType: string, branding: Branding,
                   steps: seq<BuilderStep>, fields: seq<BuilderField>): SavePayload
  {
    SavePayload(
      title, description, companyId, formType, branding.useDefaultColors,
      map["logoUrl" := branding.logoUrl, "primaryColor" := branding.primaryColor,
          "backgroundColor" := branding.backgroundColor, "fontFamily" := branding.fontFamily],
      if formType == "multi-step" then seq(|steps|, i requires 0 <= i < |steps| => PayloadStepOf(steps[i])) else [],
      seq(|fields|, i requires 0 <= i < |fields| => PayloadFieldOf(fields[i])))
  }

  /** The result of a save; `saved` is the id of the form the service
      returns, or None when the call throws. */
  function SaveAnswer(title: string, description: string, formType: string, branding: Branding,
                      steps: seq<BuilderStep>, fields: seq<BuilderField>, current: Option<Id>,
                      companyId: string, saved: Option<Id>): SaveOutcome
  {
    if Trim(title) == "" then Refused("Form Title Required")
    else if companyId == "" then Refused("Company ID Required")
    else
      var payload := Payload(title, description, companyId, formType, branding, steps, fields);
      var target := if current.Some? then UpdateExisting(current.value) else CreateNew;
      if saved.None? then SaveFailed(target, payload)
      else Saved(target, payload, if current.Some? then None else Some("/dashboard/" + companyId))
  }

  // ---------------------------------------------------------------------
  // Logo image checks

  /** The chosen file's MIME type and size in bytes. */
  datatype ImageFile = ImageFile(mimeType: string, size: int)

  datatype ImageCheck = NoFile | InvalidFileType | FileTooLarge | Accepted

  function CheckImage(file: Option<ImageFile>): ImageCheck
  {
    if file.None? then NoFile
    else if !(|file.value.mimeType| >= 6 && file.value.mimeType[..6] == "image/") then InvalidFileType
    else if file.value.size > 5 * 1024 * 1024 then FileTooLarge
    else Accepted
  }

  // ---------------------------------------------------------------------
  // Rendering

  /** `(a.order_index || 0) - (b.order_index || 0)` as a sort key. */
  function FieldRenderKey(f: BuilderField): Key { At(OrderOrZero(f)) }

  function StepRenderKey(s: BuilderStep): Key { At(s.orderIndex) }

  /** The render's `sort` (stable, as `Array.prototype.sort` is) leaves the
      same fields, ordered by their order index, missing ones counting as 0. */
  lemma RenderedFieldsSorted(fields: seq<BuilderField>)
    ensures var r := SortBy(fields, FieldRenderKey);
      && multiset(r) == multiset(fields)
      && forall i, j :: 0 <= i < j < |r| ==> OrderOrZero(r[i]) <= OrderOrZero(r[j])
  {
    var r := SortBy(fields, FieldRenderKey);
    forall i, j | 0 <= i < j < |r| ensures OrderOrZero(r[i]) <= OrderOrZero(r[j]) {
      assert KeyLe(FieldRenderKey(r[i]), FieldRenderKey(r[j]));
    }
  }

  /** The same for the steps. */
  lemma RenderedStepsSorted(steps: seq<BuilderStep>)
    ensures var r := SortBy(steps, StepRenderKey);
      && multiset(r) == multiset(steps)
      && forall i, j :: 0 <= i < j < |r| ==> r[i].orderIndex <= r[j].orderIndex
  {
    var r := SortBy(steps, StepRenderKey);
    forall i, j | 0 <= i < j < |r| ensures r[i].orderIndex <= r[j].orderIndex {
      assert KeyLe(StepRenderKey(r[i]), StepRenderKey(r[j]));
    }
  }

  /** A step appended with a smaller order index than an earlier one moves
      before it at the next render, so a save then sends it first. */
  lemma RenderMovesAnAddedStep(e: BuilderStep, f: BuilderStep)
    requires f.orderIndex < e.orderIndex
    ensures SortBy([e, f], StepRenderKey) == [f, e]
  {
    assert [e, f][1..] == [f];
    assert [f][1..] == [];
  }

  // ---------------------------------------------------------------------
  // The editor

  class Builder {
    var fields: seq<BuilderField>
    var steps: seq<BuilderStep>
    var formType: string
    var formTitle: string
    var formDescription: string
    var branding: Branding
    var currentForm: Option<Id>

    constructor()
      ensures fields == [] && steps == [] && formType == "single"
      ensures formTitle == "" && formDescription == "" && branding == DefaultBranding && currentForm == None
    {
      fields := [];
      steps := [];
      formType := "single";
      formTitle := "";
      formDescription := "";
      branding := DefaultBranding;
      currentForm := None;
    }

    method AddField(fieldType: string, stepId: Option<string>, now: nat)
      modifies this`fields
      ensures fields == WithNewField(old(fields), fieldType, stepId, now)
    {
      var newField := NewField(fieldType, stepId, NextOrderIndex(fields, stepId), now);
      fields := fields + [newField];
    }

    method HandleDragEnd(activeId: string, overId: Option<string>)
      requires Acts(activeId, overId) ==> |fields| > 0
      modifies this`fields
      ensures fields == DragEnd(old(fields), activeId, overId)
    {
      if overId.Some? && activeId != overId.value {
        var oldIndex := FindIndex(fields, activeId);
        var newIndex := FindIndex(fields, overId.value);
        var reordered := ArrayMove(fields, Slot(oldIndex, |fields|), Slot(newIndex, |fields|));
        fields := Reindexed(reordered);
      }
    }

    /** A render sorts the state arrays themselves, not copies: the preview
        sorts `fields`, and the editor of a multi-step form sorts `steps`.
        Later handlers, the save payload among them, see that order. */
    method Render(isPreview: bool)
      modifies this`fields, this`steps
      ensures fields == if isPreview then SortBy(old(fields), FieldRenderKey) else old(fields)
      ensures steps == if !isPreview && formType == "multi-step" then SortBy(old(steps), StepRenderKey) else old(steps)
    {
      if isPreview {
        fields := SortBy(fields, FieldRenderKey);
      } else if formType == "multi-step" {
        steps := SortBy(steps, StepRenderKey);
      }
    }

    method AddStep(now: nat)
      modifies this`steps
      ensures steps == old(steps) + [NewStep(old(steps), now)]
    {
      steps := steps + [NewStep(steps, now)];
    }

    method UpdateStep(stepId: string, updates: StepPatch)
      modifies this`steps
      ensures steps == StepsUpdated(old(steps), stepId, updates)
    {
      steps := StepsUpdated(steps, stepId, updates);
    }

    method DeleteStep(stepId: string)
      modifies this`steps, this`fields
      ensures steps == Filter(old(steps), StepIsNot(stepId))
      ensures fields == Filter(old(fields), NotInStep(stepId))
    {
      steps := Filter(steps, StepIsNot(stepId));
      fields := Filter(fields, NotInStep(stepId));
    }

    method UpdateField(fieldId: string, updates: FieldPatch)
      modifies this`fields
      ensures fields == FieldsUpdated(old(fields), fieldId, updates)
    {
      fields := FieldsUpdated(fields, fieldId, updates);
    }

    method DeleteField(fieldId: string)
      modifies this`fields
      ensures fields == Filter(old(fields), FieldIsNot(fieldId))
    {
      fields := Filter(fields, FieldIsNot(fieldId));
    }

    /** The option editors act on the field as it was rendered. */
    method EditOption(field: BuilderField, index: nat, value: string)
      requires index < |OptionsOf(field)|
      modifies this`fields
      ensures fields == FieldsUpdated(old(fields), field.id, OptionsPatch(OptionSet(OptionsOf(field), index, value)))
    {
      UpdateField(field.id, OptionsPatch(OptionSet(OptionsOf(field), index, value)));
    }

    method RemoveOption(field: BuilderField, index: nat)
      requires index < |OptionsOf(field)|
      modifies this`fields
      ensures fields == FieldsUpdated(old(fields), field.id, OptionsPatch(OptionRemoved(OptionsOf(field), index)))
    {
      UpdateField(field.id, OptionsPatch(OptionRemoved(OptionsOf(field), index)));
    }

    method AddOption(field: BuilderField)
      modifies this`fields
      ensures fields == FieldsUpdated(old(fields), field.id, OptionsPatch(OptionAdded(OptionsOf(field))))
    {
      UpdateField(field.id, OptionsPatch(OptionAdded(OptionsOf(field))));
    }

    /** `got` is what `getForm` resolved to; None stands for null and for a
      thrown error, after both of which nothing changes. */
    method LoadForm(got: Option<FormDoc>)
      modifies this
      ensures got.None? ==>
        && fields == old(fields) && steps == old(steps) && formType == old(formType)
        && formTitle == old(formTitle) && formDescription == old(formDescription)
        && branding == old(branding) && currentForm == old(currentForm)
      ensures got.Some? ==>
        var doc := got.value;
        && currentForm == Some(doc.form.id) && formTitle == doc.form.title
        && formDescription == OrElse(doc.form.description, "") && branding == LoadedBranding(doc.form)
        && formType == LoadedType(doc) && steps == SessionSteps(doc.steps) && fields == SessionFields(doc.fields)
    {
      if got.Some? {
        var form := got.value;
        currentForm := Some(form.form.id);
        formTitle := form.form.title;
        formDescription := OrElse(form.form.description, "");
        branding := LoadedBranding(form.form);
        formType := LoadedType(form);
        steps := SessionSteps(form.steps);
        fields := SessionFields(form.fields);
      }
    }

    method SaveForm(companyId: string, saved: Option<Id>) returns (outcome: SaveOutcome)
      modifies this`currentForm
      ensures outcome == SaveAnswer(formTitle, formDescription, formType, branding, steps, fields, old(currentForm), companyId, saved)
      ensures currentForm == if outcome.Saved? then saved else old(currentForm)
    {
      if Trim(formTitle) == "" {
        return Refused("Form Title Required");
      }
      if companyId == "" {
        return Refused("Company ID Required");
      }
      var formData := Payload(formTitle, formDescription, companyId, formType, branding, steps, fields);
      var target := if currentForm.Some? then UpdateExisting(currentForm.value) else CreateNew;
      if saved.None? {
        return SaveFailed(target, formData);
      }
      outcome := Saved(target, formData, if currentForm.Some? then None else Some("/dashboard/" + companyId));
      currentForm := saved;
    }

    /** `dataUrl` is what the file reader produces for an accepted file. */
    method HandleImage(file: Option<ImageFile>, dataUrl: string) returns (check: ImageCheck)
      modifies this`branding
      ensures check == CheckImage(file)
      ensures branding == if check.Accepted? then old(branding).(logoUrl := dataUrl) else old(branding)
    {
      check := CheckImage(file);
      if check.Accepted? {
        branding := branding.(logoUrl := dataUrl);
      }
    }
  }

  // ---------------------------------------------------------------------
  // Properties

  /** addField appends one field after the unchanged old ones; its order
      index exceeds every order index in its scope, is one more than the
      largest of them, and is 0 when the scope is empty. */
  lemma NewFieldComesLastInScope(fields: seq<BuilderField>, fieldType: string, stepId: Option<string>, now: nat)
    ensures var r := WithNewField(fields, fieldType, stepId, now);
      && |r| == |fields| + 1 && r[..|fields|] == fields
      && r[|fields|].stepId == stepId && r[|fields|].orderIndex.Some?
      && (forall i :: 0 <= i < |fields| && InScope(stepId)(fields[i]) ==> OrderOrZero(fields[i]) < r[|fields|].orderIndex.value)
      && ((forall i :: 0 <= i < |fields| ==> !InScope(stepId)(fields[i])) ==> r[|fields|].orderIndex == Some(0))
      && ((exists i :: 0 <= i < |fields| && InScope(stepId)(fields[i])) ==>
            exists i :: 0 <= i < |fields| && InScope(stepId)(fields[i]) && r[|fields|].orderIndex == Some(OrderOrZero(fields[i]) + 1))
  {
    var r := WithNewField(fields, fieldType, stepId, now);
    var n := NextOrderIndex(fields, stepId);
    var nf := NewField(fieldType, stepId, n, now);
    assert nf.orderIndex == Some(n) && nf.stepId == stepId;
    assert r == fields + [nf];
    assert r[..|fields|] == fields && r[|fields|] == nf;
    ScopeMaximum(fields, stepId);
    if exists i :: 0 <= i < |fields| && InScope(stepId)(fields[i]) {
      var i :| 0 <= i < |fields| && InScope(stepId)(fields[i]) && n == OrderOrZero(fields[i]) + 1;
      assert nf.orderIndex == Some(OrderOrZero(fields[i]) + 1);
    }
  }

  /** NextOrderIndex in terms of the fields themselves. */
  lemma ScopeMaximum(fields: seq<BuilderField>, stepId: Option<string>)
    ensures var n := NextOrderIndex(fields, stepId);
      && (forall i :: 0 <= i < |fields| && InScope(stepId)(fields[i]) ==> OrderOrZero(fields[i]) < n)
      && ((forall i :: 0 <= i < |fields| ==> !InScope(stepId)(fields[i])) ==> n == 0)
      && ((exists i :: 0 <= i < |fields| && InScope(stepId)(fields[i])) ==>
            exists i :: 0 <= i < |fields| && InScope(stepId)(fields[i]) && n == OrderOrZero(fields[i]) + 1)
  {
    var relevant := Filter(fields, InScope(stepId));
    if |relevant| > 0 {
      var k :| 0 <= k < |relevant| && OrderOrZero(relevant[k]) == MaxOrder(relevant);
      var j :| 0 <= j < |fields| && fields[j] == relevant[k];
      assert InScope(stepId)(fields[j]);
      forall i | 0 <= i < |fields| && InScope(stepId)(fields[i])
        ensures OrderOrZero(fields[i]) <= MaxOrder(relevant)
      {
        assert fields[i] in relevant;
      }
    } else {
      assert forall i :: 0 <= i < |fields| ==> !InScope(stepId)(fields[i]);
    }
  }

  /** A form just loaded has no order indexes, so the first field added to
      a non-empty scope gets order index 1, not one past the scope's size. */
  lemma AddAfterLoadNumbersFromOne(rows: seq<FieldRow>, fieldType: string, stepId: Option<string>, now: nat)
    requires exists i :: 0 <= i < |SessionFields(rows)| && InScope(stepId)(SessionFields(rows)[i])
    ensures WithNewField(SessionFields(rows), fieldType, stepId, now)[|rows|].orderIndex == Some(1)
  {
    var fields := SessionFields(rows);
    assert forall i :: 0 <= i < |fields| ==> fields[i].orderIndex.None?;
    ScopeMaximum(fields, stepId);
    assert NextOrderIndex(fields, stepId) == 1;
  }

  /** The element moved by arrayMove and the others, in order, account for
      every element once. */
  lemma ArrayMoveIsPermutation<T>(s: seq<T>, from: nat, to: nat)
    requires from < |s| && to < |s|
    ensures multiset(ArrayMove(s, from, to)) == multiset(s)
  {
    var rest := s[..from] + s[from + 1..];
    assert s == s[..from] + [s[from]] + s[from + 1..];
    assert rest == rest[..to] + rest[to..];
    calc {
      multiset(ArrayMove(s, from, to));
      multiset(rest[..to]) + multiset{s[from]} + multiset(rest[to..]);
      multiset(rest) + multiset{s[from]};
      multiset(s);
    }
  }

  /** A drag that ends over another item moves the dragged field to the
      target's position, keeps the relative order of all others, and leaves
      every field's order index equal to its position; any other drag end
      changes nothing. */
  lemma DragEndMovesOneField(fields: seq<BuilderField>, activeId: string, overId: Option<string>)
    requires Acts(activeId, overId) ==> |fields| > 0
    ensures var r := DragEnd(fields, activeId, overId);
      && |r| == |fields|
      && (!Acts(activeId, overId) ==> r == fields)
      && (Acts(activeId, overId) ==>
            var from := Slot(FindIndex(fields, activeId), |fields|);
            var to := Slot(FindIndex(fields, overId.value), |fields|);
            && (forall i :: 0 <= i < |r| ==> r[i].orderIndex == Some(i))
            && r[to] == fields[from].(orderIndex := Some(to))
            && (forall i :: 0 <= i < |r| && i != to ==> r[i] == fields[Source(i, from, to)].(orderIndex := Some(i)))
            && multiset(Ids(r)) == multiset(Ids(fields)))
  {
    if Acts(activeId, overId) {
      var from := Slot(FindIndex(fields, activeId), |fields|);
      var to := Slot(FindIndex(fields, overId.value), |fields|);
      var m := ArrayMove(fields, from, to);
      var r := Reindexed(m);
      assert Ids(r) == Ids(m);
      assert Ids(m) == ArrayMove(Ids(fields), from, to);
      ArrayMoveIsPermutation(Ids(fields), from, to);
    }
  }

  /** A dragged field that is found moves from its own position to the
      position of the field it was dropped on. */
  lemma DragUsesFoundPositions(fields: seq<BuilderField>, activeId: string, overId: string, a: nat, o: nat)
    requires a < |fields| && o < |fields| && fields[a].id == activeId && fields[o].id == overId && activeId != overId
    requires forall j :: 0 <= j < |fields| && j != a ==> fields[j].id != activeId
    requires forall j :: 0 <= j < |fields| && j != o ==> fields[j].id != overId
    ensures DragEnd(fields, activeId, Some(overId))[o] == fields[a].(orderIndex := Some(o))
  {
    assert FindIndex(fields, activeId) == a;
    assert FindIndex(fields, overId) == o;
    DragEndMovesOneField(fields, activeId, Some(overId));
  }

  /** Steps numbered by position stay so when one is added, and the new one
      is titled after its 1-based position. */
  lemma AddStepKeepsPositions(steps: seq<BuilderStep>, now: nat)
    requires forall i :: 0 <= i < |steps| ==> steps[i].orderIndex == i
    ensures var r := steps + [NewStep(steps, now)];
      && (forall i :: 0 <= i < |r| ==> r[i].orderIndex == i)
      && r[|steps|].title == "Step " + NatToString(|r|)
      && r[|steps|].description == ""
  {
  }

  /** Every field's step id names one of the steps. */
  ghost predicate StepRefsResolve(fields: seq<BuilderField>, steps: seq<BuilderStep>)
  {
    forall i :: 0 <= i < |fields| && fields[i].stepId.Some? ==>
      exists j :: 0 <= j < |steps| && steps[j].id == fields[i].stepId.value
  }

  /** deleteStep keeps, in order, exactly the other steps and exactly the
      fields not in that step, so no field is left pointing at it and every
      reference that resolved before still resolves. */
  lemma DeleteStepCascades(fields: seq<BuilderField>, steps: seq<BuilderStep>, id: string)
    ensures var rs := Filter(steps, StepIsNot(id));
      var rf := Filter(fields, NotInStep(id));
      && Subsequence(rs, steps) && Subsequence(rf, fields)
      && (forall s :: s in rs <==> s in steps && s.id != id)
      && (forall f :: f in rf <==> f in fields && f.stepId != Some(id))
      && (StepRefsResolve(fields, steps) ==> StepRefsResolve(rf, rs))
  {
    var rs := Filter(steps, StepIsNot(id));
    var rf := Filter(fields, NotInStep(id));
    FilterIsSubsequence(steps, StepIsNot(id));
    FilterIsSubsequence(fields, NotInStep(id));
    forall s ensures s in rs <==> s in steps && s.id != id {
      if s in steps && s.id != id {
        var j :| 0 <= j < |steps| && steps[j] == s;
        assert StepIsNot(id)(steps[j]);
      }
    }
    forall f ensures f in rf <==> f in fields && f.stepId != Some(id) {
      if f in fields && f.stepId != Some(id) {
        var j :| 0 <= j < |fields| && fields[j] == f;
        assert NotInStep(id)(fields[j]);
      }
    }
    if StepRefsResolve(fields, steps) {
      forall i | 0 <= i < |rf| && rf[i].stepId.Some?
        ensures exists j :: 0 <= j < |rs| && rs[j].id == rf[i].stepId.value
      {
        var k :| 0 <= k < |fields| && fields[k] == rf[i];
        var j :| 0 <= j < |steps| && steps[j].id == fields[k].stepId.value;
        assert steps[j] in rs;
      }
    }
  }

  /** deleteField keeps, in order, exactly the fields with another id. */
  lemma DeleteFieldRemovesOnlyThatId(fields: seq<BuilderField>, steps: seq<BuilderStep>, id: string)
    ensures var r := Filter(fields, FieldIsNot(id));
      && Subsequence(r, fields)
      && (forall f :: f in r <==> f in fields && f.id != id)
      && (StepRefsResolve(fields, steps) ==> StepRefsResolve(r, steps))
  {
    var r := Filter(fields, FieldIsNot(id));
    FilterIsSubsequence(fields, FieldIsNot(id));
    forall f ensures f in r <==> f in fields && f.id != id {
      if f in fields && f.id != id {
        var j :| 0 <= j < |fields| && fields[j] == f;
        assert FieldIsNot(id)(fields[j]);
      }
    }
    if StepRefsResolve(fields, steps) {
      forall i | 0 <= i < |r| && r[i].stepId.Some?
        ensures exists j :: 0 <= j < |steps| && steps[j].id == r[i].stepId.value
      {
        var k :| 0 <= k < |fields| && fields[k] == r[i];
      }
    }
  }

  /** Adding a field to an existing step keeps step references resolving;
      so does adding a field with no step. */
  lemma AddFieldKeepsRefs(fields: seq<BuilderField>, steps: seq<BuilderStep>, fieldType: string, stepId: Option<string>, now: nat)
    requires StepRefsResolve(fields, steps)
    requires stepId.Some? ==> exists j :: 0 <= j < |steps| && steps[j].id == stepId.value
    ensures StepRefsResolve(WithNewField(fields, fieldType, stepId, now), steps)
  {
    var r := WithNewField(fields, fieldType, stepId, now);
    forall i | 0 <= i < |r| && r[i].stepId.Some?
      ensures exists j :: 0 <= j < |steps| && steps[j].id == r[i].stepId.value
    {
      if i < |fields| {
        assert r[i] == fields[i];
      }
    }
  }

  /** A field update touches only the fields with that id, and only their
      texts, options and required flag: ids, types, steps, order indexes
      and positions stay. */
  lemma FieldUpdateKeepsShape(fields: seq<BuilderField>, id: string, p: FieldPatch)
    ensures var r := FieldsUpdated(fields, id, p);
      && Ids(r) == Ids(fields)
      && (forall i :: 0 <= i < |r| ==>
            r[i].fieldType == fields[i].fieldType && r[i].stepId == fields[i].stepId && r[i].orderIndex == fields[i].orderIndex)
      && (forall i :: 0 <= i < |r| && fields[i].id != id ==> r[i] == fields[i])
      && (forall i :: 0 <= i < |r| && fields[i].id == id && p.fieldLabel.Some? ==> r[i].fieldLabel == p.fieldLabel.value)
      && (forall i :: 0 <= i < |r| && fields[i].id == id && p.options.Some? ==> r[i].options == p.options)
  {
  }

  /** Applying the same update twice is applying it once. */
  lemma FieldUpdateIdempotent(fields: seq<BuilderField>, id: string, p: FieldPatch)
    ensures FieldsUpdated(FieldsUpdated(fields, id, p), id, p) == FieldsUpdated(fields, id, p)
  {
  }

  /** Updates of two different fields commute. */
  lemma FieldUpdatesCommute(fields: seq<BuilderField>, id: string, p: FieldPatch, id': string, q: FieldPatch)
    requires id != id'
    ensures FieldsUpdated(FieldsUpdated(fields, id, p), id', q) == FieldsUpdated(FieldsUpdated(fields, id', q), id, p)
  {
  }

  /** A field update keeps every step reference as it was. */
  lemma FieldUpdateKeepsRefs(fields: seq<BuilderField>, steps: seq<BuilderStep>, id: string, p: FieldPatch)
    requires StepRefsResolve(fields, steps)
    ensures StepRefsResolve(FieldsUpdated(fields, id, p), steps)
  {
    var r := FieldsUpdated(fields, id, p);
    forall i | 0 <= i < |r| && r[i].stepId.Some?
      ensures exists j :: 0 <= j < |steps| && steps[j].id == r[i].stepId.value
    {
      assert r[i].stepId == fields[i].stepId;
    }
  }

  /** A drag keeps every step reference as it was. */
  lemma DragKeepsRefs(fields: seq<BuilderField>, steps: seq<BuilderStep>, activeId: string, overId: Option<string>)
    requires Acts(activeId, overId) ==> |fields| > 0
    requires StepRefsResolve(fields, steps)
    ensures StepRefsResolve(DragEnd(fields, activeId, overId), steps)
  {
    DragEndMovesOneField(fields, activeId, overId);
    var r := DragEnd(fields, activeId, overId);
    if Acts(activeId, overId) {
      var from := Slot(FindIndex(fields, activeId), |fields|);
      var to := Slot(FindIndex(fields, overId.value), |fields|);
      forall i | 0 <= i < |r| && r[i].stepId.Some?
        ensures exists j :: 0 <= j < |steps| && steps[j].id == r[i].stepId.value
      {
        var k := if i == to then from else Source(i, from, to);
        assert r[i].stepId == fields[k].stepId;
      }
    }
  }

  /** A step update keeps ids and order indexes, changes only the steps
      with that id, and applying it twice is applying it once. */
  lemma StepUpdateKeepsShape(steps: seq<BuilderStep>, id: string, p: StepPatch)
    ensures var r := StepsUpdated(steps, id, p);
      && (forall i :: 0 <= i < |r| ==> r[i].id == steps[i].id && r[i].orderIndex == steps[i].orderIndex)
      && (forall i :: 0 <= i < |r| && steps[i].id != id ==> r[i] == steps[i])
      && (forall i :: 0 <= i < |r| && steps[i].id == id && p.title.Some? ==> r[i].title == p.title.value)
      && StepsUpdated(r, id, p) == r
  {
  }

  /** Editing an option to its own value, or removing an option just added,
      gives the options back; a removal shortens the list by one. */
  lemma OptionEditsInvert(options: seq<string>, index: nat)
    requires index < |options|
    ensures OptionSet(options, index, options[index]) == options
    ensures OptionRemoved(OptionAdded(options), |options|) == options
    ensures OptionRemoved(OptionSet(options, index, ""), index) == OptionRemoved(options, index)
  {
    assert OptionAdded(options)[..|options|] == options;
  }

  /** The loaded type is 'single' exactly when the stored type is missing or
      'single', or is 'multi-step' without steps; otherwise it is kept. */
  lemma LoadedTypeRule(doc: FormDoc)
    ensures LoadedType(doc) == "single" <==>
      (doc.form.formType in {"", "single"} || (doc.form.formType == "multi-step" && |doc.steps| == 0))
    ensures LoadedType(doc) != "single" ==> LoadedType(doc) == doc.form.formType
  {
  }

  /** Loaded fields are the stored ones in ascending order_index (ties in
      stored order), with no order index, a step id only when the stored one
      is non-empty, and '' for absent texts. */
  lemma LoadedFieldsNormalised(rows: seq<FieldRow>)
    ensures var r := SessionFields(rows);
      var sorted := SortBy(rows, ReadPath.FieldOrderKey);
      && SortedBy(sorted, ReadPath.FieldOrderKey) && multiset(sorted) == multiset(rows)
      && (forall i :: 0 <= i < |r| ==>
            && r[i].id == sorted[i].id && r[i].orderIndex.None?
            && (r[i].stepId.None? <==> !Truthy(sorted[i].stepId))
            && (r[i].stepId.Some? ==> r[i].stepId == sorted[i].stepId)
            && (sorted[i].fieldLabel.None? ==> r[i].fieldLabel == ""))
  {
  }

  /** The service already returns a form's steps and fields in order, so
      loading keeps that order. */
  lemma LoadingAFetchedFormKeepsItsOrder(configured: bool, db: Db, formId: Id, lookupFails: bool, faults: ReadPath.ReadFaults)
    requires ReadPath.GetForm(configured, db, formId, lookupFails, faults).Some?
    ensures var doc := ReadPath.GetForm(configured, db, formId, lookupFails, faults).value;
      && (forall i :: 0 <= i < |doc.steps| ==> SessionSteps(doc.steps)[i] == SessionStep(doc.steps[i]))
      && (forall i :: 0 <= i < |doc.fields| ==> SessionFields(doc.fields)[i] == SessionField(doc.fields[i]))
  {
    var doc := ReadPath.GetForm(configured, db, formId, lookupFails, faults).value;
    SortSortedIsIdentity(doc.steps, ReadPath.StepOrderKey);
    SortSortedIsIdentity(doc.fields, ReadPath.FieldOrderKey);
  }

  /** The request a save sends: steps only for a multi-step form, and the
      fields one for one, without ids and order indexes. */
  lemma PayloadShape(title: string, description: string, companyId: string, formType: string, branding: Branding,
                     steps: seq<BuilderStep>, fields: seq<BuilderField>)
    ensures var p := Payload(title, description, companyId, formType, branding, steps, fields);
      && p.companyId == companyId && p.title == title
      && (formType != "multi-step" ==> p.steps == [])
      && (formType == "multi-step" ==>
            |p.steps| == |steps| && forall i :: 0 <= i < |steps| ==> p.steps[i].id == steps[i].id)
      && |p.fields| == |fields|
      && (forall i :: 0 <= i < |fields| ==>
            p.fields[i].stepId == fields[i].stepId && p.fields[i].fieldLabel == fields[i].fieldLabel
            && p.fields[i].options == fields[i].options)
  {
  }

  /** A save is refused with the title notice exactly when the title is
      whitespace, with the company notice exactly when the title is not but
      the company id is empty, and is otherwise sent, as an update of the
      form being edited when there is one and as a creation, followed by a
      move to the company's dashboard, otherwise. */
  lemma SaveValidation(title: string, description: string, formType: string, branding: Branding,
                       steps: seq<BuilderStep>, fields: seq<BuilderField>, current: Option<Id>,
                       companyId: string, saved: Option<Id>)
    ensures var out := SaveAnswer(title, description, formType, branding, steps, fields, current, companyId, saved);
      && (out == Refused("Form Title Required") <==> AllSpace(title))
      && (out == Refused("Company ID Required") <==> !AllSpace(title) && companyId == "")
      && (!out.Refused? ==>
            && out.payload == Payload(title, description, companyId, formType, branding, steps, fields)
            && (out.target == CreateNew <==> current.None?)
            && (out.Saved? <==> saved.Some?)
            && (out.Saved? ==> (out.redirect.Some? <==> current.None?)))
  {
    TrimEmptyIffAllSpace(title);
  }

  /** Only image types within 5 MiB are accepted. */
  lemma ImageRule(file: ImageFile)
    ensures CheckImage(Some(file)) == Accepted <==>
      (exists rest :: file.mimeType == "image/" + rest) && file.size <= 5242880
  {
    if |file.mimeType| >= 6 && file.mimeType[..6] == "image/" {
      assert file.mimeType == "image/" + file.mimeType[6..];
    }
  }
}
