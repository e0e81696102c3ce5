# Customisable forms: a Dafny model of the form write and read paths and the editor and viewer state

This project models the core of a multi-tenant forms application. Companies
build forms out of steps and fields, publish them, collect responses and
export them. The model covers:

- **`POST /api/forms`** (`CreateForm`): validating the body, inserting the
  form, inserting the steps of a multi-step form while recording which
  client-side step key became which durable step id, and inserting the fields
  with their step references rewritten through that record. Field-insert
  errors are ignored, as in the source. Then the form is read back.
- **The debug twin `POST /api/debug/test-steps`** (`TestSteps`): the same
  remap, but field-insert errors end the request, and a `createdFields` list
  is returned.
- **`POST /api/forms/reorder`** (`Reorder`): one guarded update per listed id,
  matching both id and company, that stops at the first error.
- **`POST /api/forms/submit`** (`Submit`): one response row, then one data
  row per answered key.
- **The read path** (`ReadPath`): `FormsService.getForms`,
  `getFormsForAdmin`, `getForm` and `GET /api/forms`. These are functions
  over a snapshot of the tables: filter by tenant and activity, order by
  `order_index`, and attach steps only to multi-step forms.
- **The order-index backfill `POST /api/debug/add-order-field`**
  (`Backfill`): group the unnumbered forms by company, number them newest
  first, and count the successful updates.
- **The form builder** (`FormBuilder`, `BuilderColour`):
  - a class whose fields are the component's state, with one method per
    handler (add, drag, edit and delete fields and steps, option edits,
    load, save, logo upload);
  - the pure transforms those handlers apply;
  - the integer hex/RGB colour conversions.
- **The form viewer** (`FormViewer`):
  - the per-field validation rules;
  - the error object built by `validateForm`;
  - the two field-selection rules, which differ (`validateForm` against
    `getCurrentStepFields`);
  - step navigation and the submit payload;
  - a class holding `responses`, `errors`, `touched` and `currentStep`.
- **The CSV export** (`ExportUtils`): header, rows, value escaping, file
  name, and the Excel column widths.
- **The leads view** (`AllLeads`): gathering every form's responses, and the
  form and search filters.

The database is the class `Store.Store`: a snapshot `db` of the tables (as
sequences of rows, in insertion order) and a counter `nextId` that hands out
fresh ids. Every insert or update that can fail takes a boolean that decides
it. A handler receives a sequence of such booleans, the i-th deciding its
i-th call. Shared JavaScript semantics live in `Js`: truthiness, `trim`,
ASCII `toLowerCase`, `includes`, number to string, `join`, and objects as
ordered key/value lists. Filters and the stable sort that stands for
`.order(...)` live in `Query`.

Each handler is a method proved against a function that states the tables it
leaves and the answer it gives. The properties the source promises are
lemmas about those functions: the remap record, tenant isolation, only
successes being counted, and the read-back finding exactly the new rows.

## Model

| member | source | states |
|---|---|---|
| Js.TrimEmptyIffAllSpace | components/form-builder/simplified-form-viewer.tsx:102 | `value.trim() === ''` holds exactly when the text is made only of whitespace |
| Js.TrimStart | components/form-builder/simplified-form-builder.tsx:331 | the result is a suffix of the text, everything cut off is whitespace, and the result does not start with whitespace |
| Js.TrimEnd | components/form-builder/simplified-form-builder.tsx:331 | the result is a prefix of the text, everything cut off is whitespace, and the result does not end with whitespace |
| Js.ToLowerFixedPoints | components/all-leads-view.tsx:105-108 | `toLowerCase` leaves no upper-case ASCII letter; it changes a text exactly when the text has one; two texts lower-case alike exactly when they differ only in the case of letters |
| Js.NatToString | app/api/forms/route.ts:140 | the decimal rendering of a number is a non-empty string of digits |
| Js.NatToStringRoundTrip | app/api/forms/route.ts:140 | reading the rendered number `i` of `step_${i}` back gives `i` |
| Js.IntToStringRoundTrip | app/api/forms/submit/route.ts:40 | `String(n)` of an integer reads back as n: an optional '-' and digits |
| Js.JoinLength | lib/export-utils.ts:72-75 | `join` puts one separator between each pair of parts and nowhere else: the length is the parts' lengths plus (\|parts\| - 1) separators, and 0 for no parts |
| Js.Get | components/form-builder/simplified-form-viewer.tsx:137 | `o[k]` finds a value exactly when the object has the property, and the value is the one stored under k |
| Js.Put | components/form-builder/simplified-form-viewer.tsx:149 | `{ ...o, [k]: v }` leaves every other property and every position alone, and it appends a new key last |
| Js.GetPut | components/form-builder/simplified-form-viewer.tsx:149 | after `o[k] = v`, reading k gives v and reading any other key gives what it gave before; keys stay unique |
| Js.PutPut | components/form-builder/simplified-form-viewer.tsx:149 | writing a property twice is the same as writing it once with the second value |
| Query.Filter | lib/forms.ts:12-17 | a query filter keeps the rows that pass it, in table order, and every row that passes is kept |
| Query.FilterFilter | components/all-leads-view.tsx:98-110 | two filters applied one after the other are one filter by their conjunction |
| Query.SortBy | lib/forms.ts:17 | `.order('order_index')` is a permutation of the rows, sorted by the key, with unset keys last |
| Query.SortByMembers | lib/forms.ts:17 | ordering neither adds nor drops rows |
| Query.Insert | lib/forms.ts:17 | one insertion step of the sort adds exactly the one row |
| Query.InsertSorted | lib/forms.ts:17 | an insertion step keeps the rows sorted |
| Query.FilterIsSubsequence | lib/forms.ts:12-17 | a filtered list is an order-preserving subsequence of the table |
| Query.SortSortedIsIdentity | components/form-builder/simplified-form-builder.tsx:298-299 | sorting rows that are already in order changes nothing |
| Query.FilterSortCommute | lib/forms.ts:223-227 | filtering before or after the stable sort gives the same rows in the same order |
| Store.StepsOfForm | lib/forms.ts:30-34 | `.eq('form_id', id)` on `form_steps` returns exactly that form's rows |
| Store.FieldsOfForm | lib/forms.ts:42-46 | `.eq('form_id', id)` on `form_fields` returns exactly that form's rows |
| Store.FirstFailure | app/api/forms/reorder/route.ts:29-51 | a loop that stops at the first failing call makes exactly the calls before it succeed |
| Store.Store.InsertForm | app/api/forms/route.ts:98-110 | `insert(...).select().single()` on `forms` either fails and changes nothing, or appends the row with a fresh id and returns it |
| Store.Store.InsertStep | app/api/forms/route.ts:122-131 | the same for `form_steps`, which also fails when the row names no existing form (the foreign key) |
| Store.Store.InsertField | app/api/forms/route.ts:163-175 | the same for `form_fields`, with the same foreign key |
| Store.Store.InsertResponse | app/api/forms/submit/route.ts:20-29 | the same for `form_responses` |
| Store.Store.InsertResponseData | app/api/forms/submit/route.ts:44-47 | a multi-row insert writes all rows, with consecutive fresh ids, or none |
| Store.Store.UpdateFormOrder | app/api/forms/reorder/route.ts:30-38 | a failed update changes nothing; otherwise the forms table becomes `SetFormOrder` of it |
| CreateForm.Post | app/api/forms/route.ts:75-207 | a missing user (the token check throws) gives 500 and a falsy title or company gives 400, both before any insert; a failed form insert gives 500 with nothing written; otherwise the tables are `Written` and the answer is `Answer` |
| CreateForm.WriteChildren | app/api/forms/route.ts:117-202 | once the form row exists, the steps, fields and read-back leave exactly `Written` and answer `Answer` |
| CreateForm.StepPhase | app/api/forms/route.ts:117-143 | steps are written only for a multi-step form that sends some; the phase fails exactly when a step insert fails, having written the steps before it |
| CreateForm.InsertSteps | app/api/forms/route.ts:119-142 | the step loop writes steps in input order, the i-th with order_index i, up to the first refused insert; on success the record is `Remap` of the keys |
| CreateForm.InsertFieldsUnchecked | app/api/forms/route.ts:145-177 | the field loop tries every field and writes exactly those whose insert succeeds, each with its position as order_index; it never stops |
| CreateForm.StepRowsAt | app/api/forms/route.ts:120-129 | step row i is step i of the body with order_index i and the i-th fresh id |
| CreateForm.StepRows | app/api/forms/route.ts:120-129 | the first k step rows all belong to the new form |
| CreateForm.StepsInserted | app/api/forms/route.ts:119-136 | the handler inserts at most as many steps as the body sends |
| CreateForm.NewFormDefaults | app/api/forms/route.ts:78-108 | the form row has the body's title, company and description, the defaults 'single', {} and true for missing form_type, settings and use_default_colors, and the verified user as `created_by` |
| CreateForm.FieldRowDefaults | app/api/forms/route.ts:150-175 | a field row has its position as order_index, `required` false and `options` [] by default, and a step id exactly when the field names a key the record holds |
| CreateForm.FieldFailuresNeverAbort | app/api/forms/route.ts:163-193 | the request succeeds exactly when no step fails and the read-back succeeds, whatever the field inserts do |
| CreateForm.ReadBackFindsNewRows | app/api/forms/route.ts:179-200 | reading the new form back finds exactly the step and field rows this request wrote |
| CreateForm.RemapHasKey | app/api/forms/route.ts:138-141 | a key is in the record exactly when some inserted step has it (its id, or `step_<i>`) |
| CreateForm.RemapLastWins | app/api/forms/route.ts:140-141 | a key holds the id of the last step recorded under it |
| CreateForm.RemapDistinctKeys | app/api/forms/route.ts:140-141 | with distinct keys, every step's key leads to that step's own new id |
| CreateForm.RemapTargets | app/api/forms/route.ts:141 | every recorded id is the id of one of the inserted steps |
| CreateForm.InsertedFields | app/api/forms/route.ts:163-175 | the field loop writes at most one row per field, all of the new form |
| CreateForm.InsertedFieldsExactly | app/api/forms/route.ts:146-175 | a row is written exactly for each field whose insert is not refused, as that field's row |
| CreateForm.InsertedFieldsWithoutFaults | app/api/forms/route.ts:146-175 | without failures, field j is the j-th row written |
| CreateForm.FieldRefsFromRecord | app/api/forms/route.ts:150-154 | a field's step reference is always a value of the record |
| CreateForm.RecordPointsAtRows | app/api/forms/route.ts:138-141 | every value of the record is the id of a step row written by this request |
| CreateForm.FieldStepsAreNewSteps | app/api/forms/route.ts:145-177 | referential integrity: a new field row that names a step names one of the new step rows |
| CreateForm.SingleFormFieldsHaveNoStep | app/api/forms/route.ts:119-154 | a form that is not multi-step, or sends no steps, gets no steps, and every field's step_id is null |
| TestSteps.Post | app/api/debug/test-steps/route.ts:4-91 | the tables become `TWritten` and the answer is `TAnswer` |
| TestSteps.FieldPhase | app/api/debug/test-steps/route.ts:40-86 | once every step is written, the field loop and the answer are `TWritten` and `TAnswer` |
| TestSteps.WriteFields | app/api/debug/test-steps/route.ts:41-79 | fields are written in order up to the first refused insert, which ends the loop; `createdFields` lists exactly the rows written |
| TestSteps.StepsWritten | app/api/debug/test-steps/route.ts:13-30 | at most the steps sent are written, whatever the form type |
| TestSteps.FieldsWritten | app/api/debug/test-steps/route.ts:43-71 | at most the fields sent are written |
| TestSteps.FieldPrefix | app/api/debug/test-steps/route.ts:52-66 | the first k fields written, one row each |
| TestSteps.CreatedList | app/api/debug/test-steps/route.ts:73-77 | one `createdFields` entry per field written |
| TestSteps.UnknownFormWritesNothing | app/api/debug/test-steps/route.ts:13-71 | for a form that does not exist nothing is written, and the request fails unless it sends neither steps nor fields |
| TestSteps.CreatedFieldsReferToNewSteps | app/api/debug/test-steps/route.ts:43-86 | on success every field has an entry, in order, with order_index equal to its position, and a mapped step id that is one of the new steps |
| Submit.DataRows | app/api/forms/submit/route.ts:37-41 | one data row per property of `responses` |
| Submit.Post | app/api/forms/submit/route.ts:4-65 | a falsy formId, responses or submittedBy gives 400 with nothing written; otherwise the tables are `SubmitWritten` and the answer is `SubmitAnswer` |
| Submit.DataRowsHoldTheAnswers | app/api/forms/submit/route.ts:37-41 | every answered key has a data row holding `String` of its answer, and every data row is for an answered key of the new response |
| Submit.WritesFollowTheResponseRow | app/api/forms/submit/route.ts:20-53 | a response row is written exactly when its insert succeeds, and data rows only after it; no other table changes; with no answers the data fault cannot matter |
| Submit.SuccessReportsTheNewRow | app/api/forms/submit/route.ts:43-59 | on success the reported id is the new response row's, that row holds the request's values, and every new data row refers to it |
| ReadPath.FormsQuery | lib/forms.ts:12-17 | a list query returns its rows in ascending order_index |
| ReadPath.WithChildren | lib/forms.ts:26-52 | steps are attached only to a multi-step form whose step query succeeds, otherwise []; fields are [] when their query fails; both are sorted |
| ReadPath.AttachAllChildren | lib/forms.ts:25-54 | every listed form keeps its place and gets exactly its own rows of each table, steps only for a multi-step form, and nothing from a failed query |
| ReadPath.Single | lib/forms.ts:66-70 | `.single()` finds a row exactly when there is one |
| ReadPath.FormsQueryMembers | lib/forms.ts:12-17 | a list query returns exactly the rows that pass its filter |
| ReadPath.ActiveListIsExactlyTheActiveForms | lib/forms.ts:5-57 | `getForms` lists exactly the company's active forms, in ascending order_index |
| ReadPath.AdminListRestrictsToActiveList | lib/forms.ts:216-267 | the admin list is the active list plus the inactive forms, in the same order |
| ReadPath.ChildrenAreTheFormsRows | lib/forms.ts:28-52 | the attached steps and fields are exactly the form's rows in their tables |
| ReadPath.GetFormFindsTheUniqueRow | lib/forms.ts:59-111 | `getForm` returns a form exactly when one row has the id and neither the lookup nor the field query fails, and then it returns that row |
| ReadPath.RouteListsWhatTheServiceLists | app/api/forms/route.ts:7-73 | GET without a company is 400; otherwise it answers with the service's active list, or, when the forms query fails, 500 with "Failed to fetch forms" |
| ReadPath.UnconfiguredReadsNothing | lib/forms.ts:6-9 | without a configured client the list getters return [] and `getForm` returns null |
| Reorder.ReorderedForms | app/api/forms/reorder/route.ts:29-55 | applying updates keeps every row's id and company |
| Reorder.Post | app/api/forms/reorder/route.ts:4-86 | a missing or non-array formIds, or a falsy companyId, gives 400 and changes nothing; otherwise the updates before the first failure are applied and the answer is `ReorderAnswer` |
| Reorder.RunUpdates | app/api/forms/reorder/route.ts:28-55 | the loop applies updates in list order up to the first failure and returns how many succeeded |
| Reorder.OtherCompaniesUnchanged | app/api/forms/reorder/route.ts:31-38 | tenant isolation: no row of another company ever changes |
| Reorder.UnlistedUnchanged | app/api/forms/reorder/route.ts:29-55 | a row whose id is not among the applied ids is unchanged |
| Reorder.LastPositionWins | app/api/forms/reorder/route.ts:29-55 | an id listed twice gets order_index from its last applied position |
| Reorder.OnlyOrderColumnsChange | app/api/forms/reorder/route.ts:32-35 | only order_index and updated_at change |
| Reorder.OutcomeCounts | app/api/forms/reorder/route.ts:40-75 | success means no update failed, and then updatedCount is the list's length; a failure names the first failing id and the count before it; the verification read affects only finalOrder |
| Reorder.FinalOrderIsTheCompanysForms | app/api/forms/reorder/route.ts:58-62 | the verification read lists exactly the company's forms, in ascending order_index |
| Backfill.Numbering | app/api/debug/add-order-field/route.ts:42-50 | one update per form of the company |
| Backfill.Ranks | app/api/debug/add-order-field/route.ts:46-50 | one update per sorted form |
| Backfill.ApplyOnlyOrder | app/api/debug/add-order-field/route.ts:47-50 | the updates change order_index and no other column of any form |
| Backfill.LastSuccessfulUpdateWins | app/api/debug/add-order-field/route.ts:46-55 | a form named by a successful update, and by no later successful one, ends with that update's order_index |
| Backfill.Successes | app/api/debug/add-order-field/route.ts:46-55 | at most n of n updates succeed |
| Backfill.GroupByCompany | app/api/debug/add-order-field/route.ts:34-38 | the `reduce` builds the grouping `Grouped` of the rows |
| Backfill.Post | app/api/debug/add-order-field/route.ts:4-106 | a failed probe gives 400 and a failed fetch 500, both with nothing changed; otherwise every planned update that succeeds is applied and the count of successes is reported |
| Backfill.NumberAll | app/api/debug/add-order-field/route.ts:40-56 | the outer loop applies the whole plan, group by group, and counts its successes |
| Backfill.NumberCompany | app/api/debug/add-order-field/route.ts:42-55 | one company: sort newest first, then apply `Numbering` of the group |
| Backfill.NumberSorted | app/api/debug/add-order-field/route.ts:46-55 | the inner loop applies the ranks of the sorted forms and counts the successes |
| Backfill.UpdateOne | app/api/debug/add-order-field/route.ts:47-54 | one update: applied when it succeeds, counted only then |
| Backfill.GroupedIsFilter | app/api/debug/add-order-field/route.ts:34-38 | each company's array holds exactly its selected forms in fetch order, and only companies that have some appear |
| Backfill.NumberingRanksByAge | app/api/debug/add-order-field/route.ts:41-50 | within a company the newest form gets 1 and the next 2, up to the group size; the sort only reorders |
| Backfill.UnplannedUnchanged | app/api/debug/add-order-field/route.ts:47-50 | a form that no update names is left as it was |
| Backfill.PlanNamesFetchedForms | app/api/debug/add-order-field/route.ts:19-23 | every update names one of the fetched forms |
| Backfill.IndexedFormsKeepTheirIndex | app/api/debug/add-order-field/route.ts:19-23 | a form that already has a non-zero order_index is never renumbered |
| Backfill.PlanSkipsIndexed | app/api/debug/add-order-field/route.ts:19-23 | no update names a form that already has an index, when its id is not shared with an unindexed form |
| Backfill.GroupsHoldFetchedRows | app/api/debug/add-order-field/route.ts:34-38 | every array of the grouping holds fetched rows only |
| Backfill.CountsOnlySuccesses | app/api/debug/add-order-field/route.ts:46-55 | the count equals the number of updates exactly when none failed |
| FormBuilder.MaxOrder | components/form-builder/simplified-form-builder.tsx:417-419 | `Math.max` of the order indexes, missing ones counting as 0: an upper bound that some field attains |
| FormBuilder.FindIndex | components/form-builder/simplified-form-builder.tsx:444-445 | `findIndex`: the first position with the id, or -1 when none has it |
| FormBuilder.ArrayMove | components/form-builder/simplified-form-builder.tsx:447 | `arrayMove`: the moved element ends at the target, and the others keep their relative order |
| FormBuilder.Reindexed | components/form-builder/simplified-form-builder.tsx:450-453 | the reindexing map keeps the length |
| FormBuilder.StepsUpdated | components/form-builder/simplified-form-builder.tsx:472-476 | the update map keeps the number of steps |
| FormBuilder.FieldsUpdated | components/form-builder/simplified-form-builder.tsx:483-487 | the update map keeps the number of fields |
| FormBuilder.OptionSet | components/form-builder/simplified-form-builder.tsx:959-961 | editing option i changes that option only |
| FormBuilder.OptionRemoved | components/form-builder/simplified-form-builder.tsx:971-972 | removing option i shifts the later options down by one |
| FormBuilder.SessionSteps | components/form-builder/simplified-form-builder.tsx:298-305 | one session step per stored step |
| FormBuilder.SessionFields | components/form-builder/simplified-form-builder.tsx:309-320 | one session field per stored field |
| FormBuilder.Builder.constructor | components/form-builder/simplified-form-builder.tsx:65-80 | the initial state: no fields or steps, type 'single', empty title and description, default branding, no current form |
| FormBuilder.Builder.AddField | components/form-builder/simplified-form-builder.tsx:412-433 | `fields` becomes `WithNewField` of the old fields |
| FormBuilder.Builder.HandleDragEnd | components/form-builder/simplified-form-builder.tsx:440-460 | `fields` becomes `DragEnd` of the old fields |
| FormBuilder.Builder.AddStep | components/form-builder/simplified-form-builder.tsx:462-470 | one new step is appended |
| FormBuilder.Builder.UpdateStep | components/form-builder/simplified-form-builder.tsx:472-476 | the updates are merged into the steps with the id |
| FormBuilder.Builder.DeleteStep | components/form-builder/simplified-form-builder.tsx:478-481 | the step is removed, and so is every field in it |
| FormBuilder.Builder.UpdateField | components/form-builder/simplified-form-builder.tsx:483-487 | the updates are merged into the fields with the id |
| FormBuilder.Builder.DeleteField | components/form-builder/simplified-form-builder.tsx:489-491 | the fields with the id are removed |
| FormBuilder.Builder.EditOption | components/form-builder/simplified-form-builder.tsx:958-962 | the rendered field's options, with option i replaced, are merged into the field |
| FormBuilder.Builder.RemoveOption | components/form-builder/simplified-form-builder.tsx:970-973 | the rendered field's options, without option i, are merged into the field |
| FormBuilder.Builder.AddOption | components/form-builder/simplified-form-builder.tsx:984-987 | the rendered field's options, with '' appended, are merged into the field |
| FormBuilder.Builder.LoadForm | components/form-builder/simplified-form-builder.tsx:273-328 | a null or failed load changes nothing; otherwise the title, description, branding, type, steps and fields are those of the loaded form |
| FormBuilder.Builder.SaveForm | components/form-builder/simplified-form-builder.tsx:330-410 | the outcome is `SaveAnswer`, and the current form becomes the saved one only on success |
| FormBuilder.Builder.HandleImage | components/form-builder/simplified-form-builder.tsx:494-525 | the file check is `CheckImage`, and the logo changes only for an accepted file |
| FormBuilder.Builder.Render | components/form-builder/simplified-form-builder.tsx:1693-1721 | a render sorts the state arrays themselves: `fields` in the preview, `steps` in the editor of a multi-step form |
| FormBuilder.NewFieldComesLastInScope | components/form-builder/simplified-form-builder.tsx:412-433 | `addField` appends one field after the unchanged old ones; its order_index is one more than the largest in its scope, or 0 in an empty scope |
| FormBuilder.ScopeMaximum | components/form-builder/simplified-form-builder.tsx:414-419 | the next order index exceeds every index in the scope and is one more than one of them, or 0 for an empty scope |
| FormBuilder.AddAfterLoadNumbersFromOne | components/form-builder/simplified-form-builder.tsx:309-320 | loaded fields lose their order_index, so a field added to a non-empty scope after a load gets 1 |
| FormBuilder.ArrayMoveIsPermutation | components/form-builder/simplified-form-builder.tsx:447 | `arrayMove` is a permutation |
| FormBuilder.DragEndMovesOneField | components/form-builder/simplified-form-builder.tsx:440-456 | a drag without a target, or onto the dragged field itself, changes nothing; otherwise one field moves, every order_index equals its position, and the ids are permuted |
| FormBuilder.DragUsesFoundPositions | components/form-builder/simplified-form-builder.tsx:443-447 | with unique ids, the dragged field lands at the position of the field it was dropped on |
| FormBuilder.AddStepKeepsPositions | components/form-builder/simplified-form-builder.tsx:462-470 | steps numbered by position stay so, and the new one is titled "Step n+1" with an empty description |
| FormBuilder.DeleteStepCascades | components/form-builder/simplified-form-builder.tsx:478-481 | `deleteStep` keeps, in order, exactly the other steps and the fields of other steps, and step references keep resolving |
| FormBuilder.DeleteFieldRemovesOnlyThatId | components/form-builder/simplified-form-builder.tsx:489-491 | `deleteField` keeps, in order, exactly the fields with another id |
| FormBuilder.AddFieldKeepsRefs | components/form-builder/simplified-form-builder.tsx:412-433 | adding a field to an existing step, or outside steps, keeps every step reference resolving |
| FormBuilder.FieldUpdateKeepsShape | components/form-builder/simplified-form-builder.tsx:483-487 | an update changes only the fields with that id, only in the properties it sets, and never id, type, step or order |
| FormBuilder.FieldUpdateIdempotent | components/form-builder/simplified-form-builder.tsx:483-487 | applying the same update twice is applying it once |
| FormBuilder.FieldUpdatesCommute | components/form-builder/simplified-form-builder.tsx:483-487 | updates of two different fields commute |
| FormBuilder.FieldUpdateKeepsRefs | components/form-builder/simplified-form-builder.tsx:483-487 | a field update keeps every step reference resolving |
| FormBuilder.DragKeepsRefs | components/form-builder/simplified-form-builder.tsx:440-456 | a drag keeps every step reference resolving |
| FormBuilder.StepUpdateKeepsShape | components/form-builder/simplified-form-builder.tsx:472-476 | a step update keeps ids and order indexes, changes only the step with the id, and is idempotent |
| FormBuilder.OptionEditsInvert | components/form-builder/simplified-form-builder.tsx:958-987 | editing an option to its own value changes nothing; removing a just-added option undoes the add; removal ignores the value removed |
| FormBuilder.LoadedTypeRule | components/form-builder/simplified-form-builder.tsx:290-295 | the loaded type is 'single' exactly when the stored type is missing or 'single', or is multi-step with no steps; otherwise the stored type |
| FormBuilder.LoadedFieldsNormalised | components/form-builder/simplified-form-builder.tsx:309-320 | loaded fields are the stored ones sorted by order_index, with no order_index, a null step_id as undefined, and '' for a missing label |
| FormBuilder.LoadingAFetchedFormKeepsItsOrder | components/form-builder/simplified-form-builder.tsx:298-320 | `getForm` already returns children in order, so loading keeps the stored order element by element |
| FormBuilder.PayloadShape | components/form-builder/simplified-form-builder.tsx:351-378 | the payload's steps are [] unless the type is multi-step; every field is sent with its step reference, label and options, but without id or order_index |
| FormBuilder.SaveValidation | components/form-builder/simplified-form-builder.tsx:330-399 | a blank title, then an empty company, refuses the save; otherwise the payload is sent, as an update exactly when a form is loaded, and only a new form redirects |
| FormBuilder.ImageRule | components/form-builder/simplified-form-builder.tsx:497-515 | a logo file is accepted exactly when its type starts with 'image/' and it is at most 5 MiB |
| FormBuilder.RenderedFieldsSorted | components/form-builder/simplified-form-builder.tsx:1693-1694 | the render's sort keeps the same fields and orders them by order_index, missing ones counting as 0 |
| FormBuilder.RenderedStepsSorted | components/form-builder/simplified-form-builder.tsx:1720-1721 | the render's sort keeps the same steps and orders them by order_index |
| FormBuilder.RenderMovesAnAddedStep | components/form-builder/simplified-form-builder.tsx:1720-1721 | a step added with a smaller order_index than an earlier one moves before it at the next render |
| BuilderColour.HexDigit | components/form-builder/simplified-form-builder.tsx:108 | the lower-case digit of `toString(16)` |
| BuilderColour.NatToHex | components/form-builder/simplified-form-builder.tsx:108 | `toString(16)` is a non-empty string of hexadecimal digits |
| BuilderColour.HexToRgb | components/form-builder/simplified-form-builder.tsx:98-105 | `hexToRgb` answers exactly for an optional '#' and six hexadecimal digits, with channels in 0..255, and null otherwise |
| BuilderColour.RgbToHexDigits | components/form-builder/simplified-form-builder.tsx:107-109 | `rgbToHex` of channels in 0..255 is '#' and each channel as two lower-case digits |
| BuilderColour.HexRoundTrip | components/form-builder/simplified-form-builder.tsx:98-109 | `hexToRgb(rgbToHex(r, g, b))` is (r, g, b) |
| BuilderColour.PairRoundTrip | components/form-builder/simplified-form-builder.tsx:101-103 | reading two digits and writing them back gives them in lower case |
| BuilderColour.HexNormalises | components/form-builder/simplified-form-builder.tsx:98-109 | writing back a parsed colour gives '#' and its six digits in lower case |
| FormViewer.ValidateField | components/form-builder/simplified-form-viewer.tsx:91-125 | the answer is '' or one of the four messages; what each answer means is stated by ValidateFieldAccepts and the four rule lemmas |
| FormViewer.ValidateFieldAccepts | components/form-builder/simplified-form-viewer.tsx:91-125 | `validateField` returns '' exactly for acceptable answers |
| FormViewer.RequiredChoiceRule | components/form-builder/simplified-form-viewer.tsx:92-100 | a required checkbox without a truthy value is 'This field is required', and a required select without one is 'Please select an option' |
| FormViewer.RequiredTextRule | components/form-builder/simplified-form-viewer.tsx:101-105 | any other required field with an empty or blank value is 'This field is required' |
| FormViewer.EmailRule | components/form-builder/simplified-form-viewer.tsx:108-114 | a given email answer passes exactly when it matches the address pattern |
| FormViewer.PhoneRule | components/form-builder/simplified-form-viewer.tsx:116-122 | a given phone answer passes exactly when, without spaces, '-', '(' and ')', it matches the number pattern |
| FormViewer.EmailShapeIffParts | components/form-builder/simplified-form-viewer.tsx:110 | the email pattern holds exactly when the text splits into a local part, '@', and a domain with a '.', none with whitespace or '@' |
| FormViewer.EmailHasOneAt | components/form-builder/simplified-form-viewer.tsx:110 | a valid address has no whitespace and exactly one '@' |
| FormViewer.PhoneShapeBounds | components/form-builder/simplified-form-viewer.tsx:118 | a valid number is 1 to 17 characters: an optional '+', a digit 1-9, then digits |
| FormViewer.StripPhoneIdempotent | components/form-builder/simplified-form-viewer.tsx:119 | stripping keeps only other characters, and stripping twice is stripping once |
| FormViewer.StepIdAt | components/form-builder/simplified-form-viewer.tsx:133 | `form.steps?.[currentStep]?.id` is defined exactly for a step in range |
| FormViewer.CurrentStepFieldsRule | components/form-builder/simplified-form-viewer.tsx:289-308 | `getCurrentStepFields` keeps fields in form order: the unstepped fields for a single or unset type, all fields for a step-less form, the current step's fields otherwise |
| FormViewer.ScopesAgree | components/form-builder/simplified-form-viewer.tsx:132-134 | for a single or unset type, `validateForm` checks the fields that are shown |
| FormViewer.StepLessMultiStepValidatesNothing | components/form-builder/simplified-form-viewer.tsx:132-134 | a multi-step form without steps shows every field but validates none |
| FormViewer.ErrorsOf | components/form-builder/simplified-form-viewer.tsx:136-142 | the error object holds only non-empty messages |
| FormViewer.ErrorsOfKeys | components/form-builder/simplified-form-viewer.tsx:136-142 | the error object has an entry exactly for the ids of failing fields |
| FormViewer.ErrorsOfValues | components/form-builder/simplified-form-viewer.tsx:136-142 | with unique ids, each failing field's entry is its own message |
| FormViewer.ValidIffNoErrors | components/form-builder/simplified-form-viewer.tsx:127-146 | `validateForm` answers true exactly when it records no error |
| FormViewer.NavigationKeepsRange | components/form-builder/simplified-form-viewer.tsx:243-266 | both moves keep currentStep in range, and each moves it by at most one |
| FormViewer.EveryStepReachable | components/form-builder/simplified-form-viewer.tsx:254-256 | k valid advances from the first step reach step k, or the last step |
| FormViewer.AdvancedFrom | components/form-builder/simplified-form-viewer.tsx:254-256 | k valid advances from step c reach step c + k, or the last step |
| FormViewer.LastStepIffNoAdvance | components/form-builder/simplified-form-viewer.tsx:269-287 | `isLastStep` holds exactly when a valid nextStep would stay put |
| FormViewer.ResponseData | components/form-builder/simplified-form-viewer.tsx:329-332 | one `{ field_id, value }` per answer, in key order |
| FormViewer.ResponseDataFaithful | components/form-builder/simplified-form-viewer.tsx:329-332 | the payload has an entry for a field exactly when it was answered, holding the answer |
| FormViewer.TouchedFor | components/form-builder/simplified-form-viewer.tsx:317-322 | the touched object of a failed submit has a true entry exactly for the given fields' ids |
| FormViewer.TouchFields | components/form-builder/simplified-form-viewer.tsx:318-321 | the forEach builds that object |
| FormViewer.ClearError | components/form-builder/simplified-form-viewer.tsx:155-157 | the field's error, when present, becomes ''; every other entry stays |
| FormViewer.Viewer.constructor | components/form-builder/simplified-form-viewer.tsx:20-24 | no answers, step 0, no errors, nothing touched |
| FormViewer.Viewer.ValidateForm | components/form-builder/simplified-form-viewer.tsx:127-146 | the loop replaces the errors with `ErrorsOf` of the validated fields and answers whether all passed |
| FormViewer.Viewer.HandleFieldChange | components/form-builder/simplified-form-viewer.tsx:148-158 | records the answer, marks the field touched, and clears only its error |
| FormViewer.Viewer.HandleFieldBlur | components/form-builder/simplified-form-viewer.tsx:160-168 | marks the field touched and records its error, if it has one |
| FormViewer.Viewer.NextStep | components/form-builder/simplified-form-viewer.tsx:243-257 | validates the page, then advances only when it is valid and not on the last step |
| FormViewer.Viewer.PrevStep | components/form-builder/simplified-form-viewer.tsx:259-267 | goes back one step unless already on the first |
| FormViewer.Viewer.HandleSubmit | components/form-builder/simplified-form-viewer.tsx:311-340 | an invalid page blocks the submit and marks exactly the unstepped fields touched; a valid one hands `ResponseData` to the callback |
| ExportUtils.DoubleQuotes | lib/export-utils.ts:63 | `replace(/"/g, '""')` never shortens the text |
| ExportUtils.UndoubleDoubleQuotes | lib/export-utils.ts:63 | doubling quotes loses nothing: undoubling gives the text back |
| ExportUtils.Escape | lib/export-utils.ts:62-64 | only string values are escaped, and other values are unchanged |
| ExportUtils.EscapeRoundTrip | lib/export-utils.ts:62-64 | a CSV reader reading an escaped text gets the original text |
| ExportUtils.ReadEscaped | lib/export-utils.ts:62-64 | an escaped text reads as one cell, with no separator, break or open quote |
| ExportUtils.FieldValue | lib/export-utils.ts:60 | `response[label] \|\| ''`: a truthy value or '', '' for a missing label, and otherwise the stored value |
| ExportUtils.FieldCells | lib/export-utils.ts:59-66 | one escaped cell per field, in field order |
| ExportUtils.BuildRow | lib/export-utils.ts:50-69 | the row grown by `push` is `RowOf` the response |
| ExportUtils.RowShape | lib/export-utils.ts:50-66 | every row has 4 + \|fields\| cells: the four fixed ones, then each field's escaped value, with '' for a missing one |
| ExportUtils.CsvContentLayout | lib/export-utils.ts:72-75 | the header line comes first, then each response's line in order, joined by '\n' |
| ExportUtils.ExportToCsv | lib/export-utils.ts:33-85 | nothing is produced exactly when there are no responses; the file name is the sanitised title and '_export.csv' |
| ExportUtils.Utf16Length | lib/export-utils.ts:82 | a title's UTF-16 length is at least its number of characters |
| ExportUtils.SafeTitle | lib/export-utils.ts:82 | the sanitised title has one character per UTF-16 unit, each an ASCII letter, digit or '_' |
| ExportUtils.SafeTitleKeepsAlnum | lib/export-utils.ts:82 | a title of ASCII letters and digits is kept as it is |
| ExportUtils.SafeTitleIdempotent | lib/export-utils.ts:82 | sanitising twice is sanitising once |
| ExportUtils.SafeTitleOnSafe | lib/export-utils.ts:82 | a sanitised-looking title is kept as it is |
| ExportUtils.UnescapedSubmitterSplits | lib/export-utils.ts:50-56 | as written, a submitter such as "Doe, Jane" puts five cells on a line under a four-column header |
| ExportUtils.SubmitterTexts | lib/export-utils.ts:50-56 | the four leading cells are written without escaping |
| ExportUtils.ReadQuotedJoin | lib/export-utils.ts:72-75 | n escaped texts joined by ',' read as one record of n cells |
| ExportUtils.ReadQuotedJoinCells | lib/export-utils.ts:62-64 | escaped texts joined by ',' read back as the texts themselves |
| ExportUtils.SplitJoin | lib/export-utils.ts:72-75 | a CSV reader splitting `parts.join(sep)` at separators outside quotes gets the parts back, when each part is one piece with no quote left open |
| ExportUtils.QuotedRecords | lib/export-utils.ts:72-75 | the escaped export has the header record and one record per response |
| ExportUtils.QuotedRecordsRead | lib/export-utils.ts:72-75 | each record of the corrected export has 4 + \|fields\| cells and no record break outside quotes |
| ExportUtils.QuotedCsvContentReadsBack | lib/export-utils.ts:72-75 | with every cell escaped once, a CSV reader gets back exactly the header and each response's cell texts, in order |
| ExportUtils.QuotedCellsReadBack | lib/export-utils.ts:50-66 | in the corrected export, record i + 1 has 4 + \|fields\| cells, the submitter as given and field j's value as it stands, '' when missing |
| ExportUtils.ColumnWidths | lib/export-utils.ts:126-132 | widths 15, 20, 20 and 15 for the fixed columns, and the larger of the label's length and 15 for each field column |
| AllLeads.GatheredSnoc | components/all-leads-view.tsx:70-84 | one more form appends its contribution |
| AllLeads.GatheredAppend | components/all-leads-view.tsx:70-84 | gathering two lists of forms in turn concatenates their leads |
| AllLeads.GatheredMembers | components/all-leads-view.tsx:69-86 | a lead is gathered exactly when it is in some form's contribution |
| AllLeads.GatheredLeadsAreTaggedResponses | components/all-leads-view.tsx:69-86 | a lead is gathered exactly when it is one of the responses of a form whose fetch was ok, tagged with that form's title |
| AllLeads.FailedFormContributesNothing | components/all-leads-view.tsx:73-83 | removing a form whose fetch failed changes nothing |
| AllLeads.LoadResponses | components/all-leads-view.tsx:69-84 | the loop's list is `Gathered` of the forms |
| AllLeads.FilterResponsesIsOneFilter | components/all-leads-view.tsx:94-113 | the two filters in a row are one filter by `Shown` |
| AllLeads.FilterSame | components/all-leads-view.tsx:103-111 | filters by two predicates that agree everywhere are equal |
| AllLeads.FilterResponsesKeepsOrder | components/all-leads-view.tsx:94-113 | the shown leads are an order-preserving subsequence of all leads |
| AllLeads.FilterResponsesMembers | components/all-leads-view.tsx:94-113 | a lead is shown exactly when it is of the selected form (any for 'all') and, for a non-empty term, its submitter or form title contains the term, ignoring case |
| AllLeads.ToLowerIdempotent | components/all-leads-view.tsx:105-108 | lower-casing twice is lower-casing once |
| AllLeads.SearchIgnoresCase | components/all-leads-view.tsx:104-110 | terms equal up to case show the same leads |
| AllLeads.SearchLowerCaseTerm | components/all-leads-view.tsx:105 | a term and its lower-case form show the same leads |
| AllLeads.LeadsView.constructor | components/all-leads-view.tsx:41-47 | no leads, an empty search, 'all' selected, nothing shown |
| AllLeads.LeadsView.RunFilter | components/all-leads-view.tsx:56-58 | the effect recomputes the shown leads as `FilterResponses` of the state |
| AllLeads.LeadsView.LoadData | components/all-leads-view.tsx:60-92 | the leads become `Gathered` of the forms, the filters stay, and the shown leads follow |
| AllLeads.LeadsView.SetSearchTerm | components/all-leads-view.tsx:46-58 | a new term, and the shown leads follow it |
| AllLeads.LeadsView.SetSelectedForm | components/all-leads-view.tsx:47-58 | a new selected form, and the shown leads follow it |

## Left out

- Network, clocks and the database client are not modelled as such. The
  verified user, request timestamps, `Date.now()` ids, `toLocaleString`
  output and the values of request headers are parameters. Every store call's
  success is a boolean oracle, and `isSupabaseConfigured` is a parameter.
- `whopSdk.verifyUserToken` is not part of this model: a failed verification
  is the `None` user, which gives the catch-all 500.
- JSON `null` for a body property counts as absent; a body that is not an
  object is not modelled, nor is the catch-all 500 of the other handlers
  (only thrown errors reach it).
- `Promise.all` in the read path is a map in list order; concurrency is not
  modelled.
- The HTTP wrappers of `FormsService` (`createForm`, `updateForm`,
  `deleteForm`, `submitForm`, `getFormResponses`, `toggleFormActivity`,
  `reorderForms`) are not part of this model. Neither are the server
  handlers behind them that are not shown.
- The builder's template branch (lines 254-271 of the builder) is left out,
  as is rendering, apart from the two sorts that reorder the state arrays
  in place (`Builder.Render`); theme and font handling and the floating-point
  colour maths (HSV, HSL, gradient and hue clicks). The viewer's logo
  brightness sampling and progress percentage are left out too.
- The logo file is read by `FileReader`; the data URL it produces is a
  parameter of `HandleImage`, and the two upload paths (input and drop)
  share one method.
- `exportToExcel` beyond its column widths is left out: the workbook and
  metadata sheets are library calls. So are `exportToJSON`,
  `fetchFormExportData`, the `Blob` and anchor download, and the `alert`.
- The leads view's `getForms` failure, `setError`, `isLoading` and the
  export handlers are left out. `LoadData` takes the form list once it is
  in.
- `Js.ToLower`: lower-cases ASCII letters only, because JavaScript's full
  Unicode case mapping is out of scope.
- `Js.JsValue` has integers but no fractional numbers, so `String(value)` of
  a fractional answer (in `Submit.DataRows`) and floating-point
  formatting in general are not modelled.
- Reorder.Post: the source stamps each update with its own `new Date()`;
  the model gives every update of one request the same time `now`.
- CreateForm.Post, CreateForm.WriteChildren: the read-back
  `.select('*, form_fields(*), form_steps(*)')` puts no order on the
  embedded rows, so the 200 answer's `fields` and `steps` come in an order
  the database chooses. The model answers them in insertion order
  (`CreateForm.Answer`). Which rows are embedded does not depend on this
  (`CreateForm.ReadBackFindsNewRows`); their order does.
- ReadPath.AdminListRestrictsToActiveList, ReadPath.ActiveListIsExactlyTheActiveForms,
  Reorder.FinalOrderIsTheCompanysForms, Query.FilterSortCommute and
  FormBuilder.LoadingAFetchedFormKeepsItsOrder: `.order('order_index')` is
  modelled as a stable sort, so rows with equal order_index keep table
  order. PostgreSQL does not promise any order among ties, and ties are
  common (the column defaults to 0). Which rows are listed and that they
  ascend by order_index do not depend on this; the order among ties does.
- Object properties named like `Object.prototype` members are ordinary keys
  here.
- Integer keys, which JavaScript lists before other keys in
  `Object.entries`, keep insertion order here.
- AllLeads.MatchesSearch: a lead with a null `submitted_by`, on which
  `toLowerCase` throws, is not modelled; submitters are strings.
- FormBuilder.Builder.HandleDragEnd: requires a non-empty field list when a
  drag acts. A drag starts on a rendered field, so the list is never empty
  then.
- FormBuilder.DragEndMovesOneField: states the move for positions found by
  `findIndex`. When an id is missing, the -1 position behaves as `splice`
  does on the last element; this is modelled in `Slot` but not spelled out
  in a lemma.
- FormViewer.ValidateField: answers are strings, booleans or missing. A
  phone answer that is not a string (on which `replace` throws) is not
  modelled.
- ExportUtils.ExportToCsv: the download is the returned text; nothing is
  written to a file.

## Findings

| source | as written | input that shows it | evidently intended | confidence | as-written member | corrected member |
|---|---|---|---|---|---|---|
| lib/export-utils.ts:50-56 | only field values are escaped; the response id, submitter, time and IP address are joined unescaped | a response whose `submitted_by` is "Doe, Jane" | every cell escaped once, so that a CSV reader gets back each response's 4 + \|fields\| cells as written, under the header | not executed | ExportUtils.UnescapedSubmitterSplits | ExportUtils.QuotedCsvContentReadsBack |

`ExportUtils.CsvContent` and `ExportToCsv` model the export as written.
`ExportUtils.QuotedCsvContent` is the corrected text. It is built from the
raw cell texts (`RawRowOf`), and every cell, the leading four included, is
escaped exactly once. `ExportUtils.ParseCsv` is a CSV reader. It splits on
newlines and commas that are outside quotes, then unquotes each cell.
`QuotedCsvContentReadsBack` proves that this reader returns exactly the
header and each response's cells.
