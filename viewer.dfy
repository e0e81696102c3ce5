/** The public form viewer: per-field validation, the choice of fields that
    one page shows and that one validation pass checks, navigation between
    the steps of a multi-step form, and the answers, errors and touched
    marks that the input handlers record. The form itself is fixed for the
    viewer's lifetime; the four pieces of state are fields of a class whose
    handlers are methods. */
module FormViewer {
  import opened Js
  import opened Query
  import opened Store

  /** What an input hands to the change handler: text from a text, email,
      phone, textarea or select input, a flag from a checkbox. */
  datatype Answer = Text(s: string) | Checked(b: bool)

  /** `!!value` for an answer that may not have been given yet. */
  predicate Given(v: Option<Answer>)
  {
    match v
    case None => false
    case Some(Text(s)) => s != ""
    case Some(Checked(b)) => b
  }

  /** `value.toString()`. */
  function AnswerText(a: Answer): string
  {
    match a
    case Text(s) => s
    case Checked(b) => if b then "true" else "false"
  }

  const RequiredMessage := "This field is required"
  const SelectMessage := "Please select an option"
  const EmailMessage := "Please enter a valid email address"
  const PhoneMessage := "Please enter a valid phone number"

  // ---------------------------------------------------------------------
  // The two patterns

  /** One or more characters, none of them whitespace or '@' (`[^\s@]+`). */
  predicate Plain(s: string)
  {
    |s| > 0 && forall i :: 0 <= i < |s| ==> !IsSpace(s[i]) && s[i] != '@'
  }

  /** `[^\s@]+\.[^\s@]+`: since '.' is itself allowed on both sides, a run
      of plain characters with a '.' somewhere strictly inside it. */
  predicate DomainShape(d: string)
  {
    Plain(d) && exists k | 0 < k < |d| - 1 :: d[k] == '.'
  }

  /** `/^[^\s@]+@[^\s@]+\.[^\s@]+$/.test(s)`. */
  predicate EmailShape(s: string)
  {
    exists at | 0 <= at < |s| :: s[at] == '@' && Plain(s[..at]) && DomainShape(s[at + 1..])
  }

  /** s is the local part l, '@', then x, '.', y, each part plain. */
  ghost predicate EmailParts(s: string, l: string, x: string, y: string)
  {
    s == l + "@" + x + "." + y && Plain(l) && Plain(x) && Plain(y)
  }

  /** `[1-9][\d]{0,15}`. */
  predicate NationalNumber(u: string)
  {
    1 <= |u| <= 16 && '1' <= u[0] <= '9' && forall i :: 0 <= i < |u| ==> IsDigit(u[i])
  }

  /** `/^[\+]?[1-9][\d]{0,15}$/.test(t)`. */
  predicate PhoneShape(t: string)
  {
    NationalNumber(t) || (|t| > 0 && t[0] == '+' && NationalNumber(t[1..]))
  }

  /** The characters `replace(/[\s\-\(\)]/g, '')` keeps. */
  function KeptInPhone(c: char): bool
  {
    !(IsSpace(c) || c == '-' || c == '(' || c == ')')
  }

  /** `value.replace(/[\s\-\(\)]/g, '')`. */
  function StripPhone(s: string): string
  {
    Filter(s, KeptInPhone)
  }

  // ---------------------------------------------------------------------
  // validateField

  /** The message validateField returns for one field and its answer, or ''
      when no rule fires. The required rules come first; the pattern rules
      apply to any given answer. */
  function ValidateField(value: Option<Answer>, field: FieldRow): (error: string)
    ensures error in {"", RequiredMessage, SelectMessage, EmailMessage, PhoneMessage}
  {
    if field.required && field.fieldType == "checkbox" && !Given(value) then RequiredMessage
    else if field.required && field.fieldType == "select" && !Given(value) then SelectMessage
    else if field.required && field.fieldType != "checkbox" && field.fieldType != "select"
      && (!Given(value) || Trim(AnswerText(value.value)) == "") then RequiredMessage
    else if field.fieldType == "email" && Given(value) && !EmailShape(AnswerText(value.value)) then EmailMessage
    else if field.fieldType == "phone" && Given(value) && !PhoneShape(StripPhone(AnswerText(value.value))) then PhoneMessage
    else ""
  }

  /** A declarative reading of the rules: a required field is answered (for
      a text-like field, with something other than whitespace), and a given
      email or phone answer has the expected shape. */
  predicate Acceptable(value: Option<Answer>, field: FieldRow)
  {
    && (field.required ==>
         Given(value) && (field.fieldType != "checkbox" && field.fieldType != "select" ==> !AllSpace(AnswerText(value.value))))
    && (field.fieldType == "email" && Given(value) ==> EmailShape(AnswerText(value.value)))
    && (field.fieldType == "phone" && Given(value) ==> PhoneShape(StripPhone(AnswerText(value.value))))
  }

  /** validateField returns '' exactly for acceptable answers. */
  lemma ValidateFieldAccepts(value: Option<Answer>, field: FieldRow)
    ensures ValidateField(value, field) == "" <==> Acceptable(value, field)
  {
    if value.Some? {
      TrimEmptyIffAllSpace(AnswerText(value.value));
    }
  }

  /** A required checkbox that is not ticked, and a required select with no
      choice, get their own messages. */
  lemma RequiredChoiceRule(value: Option<Answer>, field: FieldRow)
    requires field.required && !Given(value)
    ensures field.fieldType == "checkbox" ==> ValidateField(value, field) == RequiredMessage
    ensures field.fieldType == "select" ==> ValidateField(value, field) == SelectMessage
  {
  }

  /** Any other required field whose answer is missing or only whitespace
      gets 'This field is required'. */
  lemma RequiredTextRule(value: Option<Answer>, field: FieldRow)
    requires field.required && field.fieldType != "checkbox" && field.fieldType != "select"
    requires !Given(value) || AllSpace(AnswerText(value.value))
    ensures ValidateField(value, field) == RequiredMessage
  {
    if value.Some? {
      TrimEmptyIffAllSpace(AnswerText(value.value));
    }
  }

  /** Once the required rule is satisfied, a given email answer is accepted
      exactly when it has the pattern's shape. */
  lemma EmailRule(value: Option<Answer>, field: FieldRow)
    requires Given(value) && field.fieldType == "email"
    requires field.required ==> !AllSpace(AnswerText(value.value))
    ensures ValidateField(value, field) == if EmailShape(AnswerText(value.value)) then "" else EmailMessage
  {
    TrimEmptyIffAllSpace(AnswerText(value.value));
  }

  /** Once the required rule is satisfied, a given phone answer is accepted
      exactly when, stripped of formatting, it has the pattern's shape. */
  lemma PhoneRule(value: Option<Answer>, field: FieldRow)
    requires Given(value) && field.fieldType == "phone"
    requires field.required ==> !AllSpace(AnswerText(value.value))
    ensures ValidateField(value, field) == if PhoneShape(StripPhone(AnswerText(value.value))) then "" else PhoneMessage
  {
    TrimEmptyIffAllSpace(AnswerText(value.value));
  }

  /** The email pattern holds exactly for local part, '@', a name, '.', and
      a suffix, none of the three empty or holding whitespace or '@'. */
  lemma EmailShapeIffParts(s: string)
    ensures EmailShape(s) <==> exists l, x, y :: EmailParts(s, l, x, y)
  {
    if EmailShape(s) {
      var l, x, y := PartsOfEmail(s);
    }
    if exists l, x, y :: EmailParts(s, l, x, y) {
      var l, x, y :| EmailParts(s, l, x, y);
      EmailOfParts(s, l, x, y);
    }
  }

  lemma PartsOfEmail(s: string) returns (l: string, x: string, y: string)
    requires EmailShape(s)
    ensures EmailParts(s, l, x, y)
  {
    var at :| 0 <= at < |s| && s[at] == '@' && Plain(s[..at]) && DomainShape(s[at + 1..]);
    var d := s[at + 1..];
    var k :| 0 < k < |d| - 1 && d[k] == '.';
    l, x, y := s[..at], d[..k], d[k + 1..];
    PlainSlice(d, 0, k);
    PlainSlice(d, k + 1, |d|);
    SplitTwice(s, at, k);
    assert [s[at]] == "@" && [d[k]] == ".";
  }

  /** s cut at position at and then, in the rest, at position k. */
  lemma SplitTwice<T>(s: seq<T>, at: int, k: int)
    requires 0 <= at < |s| && 0 <= k < |s| - at - 1
    ensures var d := s[at + 1..];
      s == s[..at] + [s[at]] + d[..k] + [d[k]] + d[k + 1..]
  {
    var d := s[at + 1..];
    assert d == d[..k] + [d[k]] + d[k + 1..];
    assert s == s[..at] + [s[at]] + d;
  }

  lemma PlainSlice(d: string, a: int, b: int)
    requires Plain(d) && 0 <= a < b <= |d|
    ensures Plain(d[a..b])
  {
    assert forall i :: 0 <= i < b - a ==> d[a..b][i] == d[a + i];
  }

  lemma EmailOfParts(s: string, l: string, x: string, y: string)
    requires EmailParts(s, l, x, y)
    ensures EmailShape(s)
  {
    var d := x + "." + y;
    assert s == l + ("@" + d);
    var at := |l|;
    assert s[..at] == l && s[at] == '@' && s[at + 1..] == d;
    assert d[|x|] == '.';
    assert Plain(d) by {
      assert forall i :: 0 <= i < |x| ==> d[i] == x[i];
      assert forall i :: |x| < i < |d| ==> d[i] == y[i - |x| - 1];
    }
    assert DomainShape(d);
  }

  /** A valid email address has no whitespace and exactly one '@'. */
  lemma EmailHasOneAt(s: string)
    requires EmailShape(s)
    ensures forall i :: 0 <= i < |s| ==> !IsSpace(s[i])
    ensures exists at :: 0 <= at < |s| && s[at] == '@' && forall j :: 0 <= j < |s| && s[j] == '@' ==> j == at
  {
    var at :| 0 <= at < |s| && s[at] == '@' && Plain(s[..at]) && DomainShape(s[at + 1..]);
    var l, d := s[..at], s[at + 1..];
    forall j | 0 <= j < |s|
      ensures !IsSpace(s[j]) && (s[j] == '@' ==> j == at)
    {
      if j < at {
        assert s[j] == l[j];
      } else if j > at {
        assert s[j] == d[j - at - 1];
      }
    }
  }

  /** An accepted phone number, once stripped, is 1 to 17 characters: an
      optional '+' and then only digits, the first of them not 0. */
  lemma PhoneShapeBounds(t: string)
    requires PhoneShape(t)
    ensures 1 <= |t| <= 17
    ensures forall i :: 0 < i < |t| ==> IsDigit(t[i])
    ensures t[0] == '+' || '1' <= t[0] <= '9'
    ensures t[0] == '+' ==> |t| >= 2 && '1' <= t[1] <= '9'
  {
    if !NationalNumber(t) {
      var u := t[1..];
      assert forall i :: 0 < i < |t| ==> t[i] == u[i - 1];
    }
  }

  /** Stripping the phone formatting characters leaves none of them and
      stripping again changes nothing. */
  lemma StripPhoneIdempotent(s: string)
    ensures forall i :: 0 <= i < |StripPhone(s)| ==> KeptInPhone(StripPhone(s)[i])
    ensures StripPhone(StripPhone(s)) == StripPhone(s)
  {
    FilterAll(StripPhone(s), KeptInPhone);
  }

  // ---------------------------------------------------------------------
  // Field selection

  /** `!field.step_id`. */
  function Unstepped(f: FieldRow): bool
  {
    !Truthy(f.stepId)
  }

  /** `field.step_id === target`, where an undefined target (no such step)
      equals no stored step reference, not even a null one. */
  function OnStep(target: Option<Id>): FieldRow -> bool
  {
    (f: FieldRow) => target.Some? && f.stepId == target
  }

  /** `form.steps?.[currentStep]?.id`. */
  function StepIdAt(steps: seq<StepRow>, currentStep: int): (r: Option<Id>)
    ensures r.Some? <==> 0 <= currentStep < |steps|
  {
    if 0 <= currentStep < |steps| then Some(steps[currentStep].id) else None
  }

  /** The fields validateForm checks: on a 'multi-step' form those of the
      current step; on any other form those without a step. */
  function ValidationScope(form: FormDoc, currentStep: int): seq<FieldRow>
  {
    if form.form.formType == "multi-step" then Filter(form.fields, OnStep(StepIdAt(form.steps, currentStep)))
    else Filter(form.fields, Unstepped)
  }

  /** The fields getCurrentStepFields shows. An unset or 'single' type shows
      the fields without a step; any other type is treated as multi-step. */
  function CurrentStepFields(form: FormDoc, currentStep: int): seq<FieldRow>
  {
    if form.form.formType == "" || form.form.formType == "single" then Filter(form.fields, Unstepped)
    else if |form.steps| == 0 then form.fields
    else if 0 <= currentStep < |form.steps| then Filter(form.fields, OnStep(Some(form.steps[currentStep].id)))
    else []
  }

  /** What getCurrentStepFields shows, field by field, in the form's order. */
  lemma CurrentStepFieldsRule(form: FormDoc, currentStep: int)
    ensures Subsequence(CurrentStepFields(form, currentStep), form.fields)
    ensures form.form.formType == "" || form.form.formType == "single" ==>
      forall f :: f in CurrentStepFields(form, currentStep) <==> f in form.fields && !Truthy(f.stepId)
    ensures form.form.formType != "" && form.form.formType != "single" && |form.steps| == 0 ==>
      CurrentStepFields(form, currentStep) == form.fields
    ensures form.form.formType != "" && form.form.formType != "single" && 0 <= currentStep < |form.steps| ==>
      forall f :: f in CurrentStepFields(form, currentStep) <==> f in form.fields && f.stepId == Some(form.steps[currentStep].id)
  {
    var r := CurrentStepFields(form, currentStep);
    if r == form.fields {
      SubsequenceRefl(form.fields);
    } else if r == [] {
    } else if form.form.formType == "" || form.form.formType == "single" {
      FilterIsSubsequence(form.fields, Unstepped);
    } else {
      FilterIsSubsequence(form.fields, OnStep(Some(form.steps[currentStep].id)));
    }
  }

  lemma {:induction false} SubsequenceRefl<T>(s: seq<T>)
    ensures Subsequence(s, s)
  {
    if |s| > 0 {
      SubsequenceRefl(s[1..]);
    }
  }

  /** The two selections agree on a single form and on a multi-step form
      whose current step exists. */
  lemma ScopesAgree(form: FormDoc, currentStep: int)
    requires form.form.formType in {"", "single"}
      || (form.form.formType == "multi-step" && 0 <= currentStep < |form.steps|)
    ensures ValidationScope(form, currentStep) == CurrentStepFields(form, currentStep)
  {
  }

  /** A multi-step form stored without steps shows every field but
      validates none of them, so its required fields never block. */
  lemma StepLessMultiStepValidatesNothing(form: FormDoc, currentStep: int, check: FieldRow -> string)
    requires form.form.formType == "multi-step" && |form.steps| == 0
    ensures CurrentStepFields(form, currentStep) == form.fields
    ensures ValidationScope(form, currentStep) == []
    ensures ErrorsOf(ValidationScope(form, currentStep), check) == map[]
  {
    assert forall i :: 0 <= i < |form.fields| ==> !OnStep(None)(form.fields[i]);
    FilterNone(form.fields, OnStep(None));
  }

  // ---------------------------------------------------------------------
  // validateForm

  /** The check validateForm applies to each field: validateField of the
      field and its recorded answer. */
  function FieldCheck(responses: Entries<Answer>): FieldRow -> string
  {
    (f: FieldRow) => ValidateField(Get(responses, f.id), f)
  }

  /** The `newErrors` object after the fields have been checked in order: a
      later field with the same id overwrites an earlier one's message. */
  function ErrorsOf(fs: seq<FieldRow>, check: FieldRow -> string): (m: map<string, string>)
    ensures forall k :: k in m ==> m[k] != ""
    decreases |fs|
  {
    if |fs| == 0 then map[]
    else
      var m := ErrorsOf(fs[..|fs| - 1], check);
      var f := fs[|fs| - 1];
      var e := check(f);
      if e != "" then m[f.id := e] else m
  }

  /** One more checked field: its message, if any, is recorded last. */
  lemma ErrorsOfSnoc(fs: seq<FieldRow>, i: int, check: FieldRow -> string)
    requires 0 <= i < |fs|
    ensures var e := check(fs[i]);
      ErrorsOf(fs[..i + 1], check) == if e != "" then ErrorsOf(fs[..i], check)[fs[i].id := e] else ErrorsOf(fs[..i], check)
    ensures AllValid(fs[..i + 1], check) <==> AllValid(fs[..i], check) && check(fs[i]) == ""
  {
    assert fs[..i + 1][..i] == fs[..i];
  }

  /** Every field in fs passes validation. */
  predicate AllValid(fs: seq<FieldRow>, check: FieldRow -> string)
  {
    forall i :: 0 <= i < |fs| ==> check(fs[i]) == ""
  }

  /** The error object has an entry exactly for the ids of failing fields. */
  lemma {:induction false} ErrorsOfKeys(fs: seq<FieldRow>, check: FieldRow -> string)
    ensures forall k :: k in ErrorsOf(fs, check) <==>
      exists i :: 0 <= i < |fs| && fs[i].id == k && check(fs[i]) != ""
    decreases |fs|
  {
    if |fs| > 0 {
      var p := fs[..|fs| - 1];
      ErrorsOfKeys(p, check);
      assert forall i :: 0 <= i < |p| ==> p[i] == fs[i];
    }
  }

  /** With unique ids, each failing field's entry holds its own message. */
  lemma {:induction false} ErrorsOfValues(fs: seq<FieldRow>, check: FieldRow -> string, i: int)
    requires forall a, b :: 0 <= a < b < |fs| ==> fs[a].id != fs[b].id
    requires 0 <= i < |fs| && check(fs[i]) != ""
    ensures fs[i].id in ErrorsOf(fs, check)
    ensures ErrorsOf(fs, check)[fs[i].id] == check(fs[i])
    decreases |fs|
  {
    var p := fs[..|fs| - 1];
    if i < |fs| - 1 {
      assert p[i] == fs[i];
      ErrorsOfValues(p, check, i);
    }
  }

  /** validateForm answers true exactly when it records no error. */
  lemma ValidIffNoErrors(fs: seq<FieldRow>, check: FieldRow -> string)
    ensures AllValid(fs, check) <==> ErrorsOf(fs, check) == map[]
  {
    ErrorsOfKeys(fs, check);
    if !AllValid(fs, check) {
      var i :| 0 <= i < |fs| && check(fs[i]) != "";
      assert fs[i].id in ErrorsOf(fs, check);
    }
  }

  // ---------------------------------------------------------------------
  // Navigation

  /** `currentStep` within [0, steps.length - 1], or 0 when there are no steps. */
  predicate InRange(form: FormDoc, currentStep: int)
  {
    0 <= currentStep && (currentStep == 0 || currentStep < |form.steps|)
  }

  /** The step after nextStep, given whether validation passed. */
  function NextStepIndex(form: FormDoc, currentStep: int, valid: bool): int
  {
    if valid && form.form.formType == "multi-step" && currentStep < |form.steps| - 1 then currentStep + 1 else currentStep
  }

  /** The step after prevStep. */
  function PrevStepIndex(currentStep: int): int
  {
    if currentStep > 0 then currentStep - 1 else currentStep
  }

  /** Both moves keep the step in range, and each moves by at most one. */
  lemma NavigationKeepsRange(form: FormDoc, currentStep: int, valid: bool)
    requires InRange(form, currentStep)
    ensures InRange(form, NextStepIndex(form, currentStep, valid))
    ensures InRange(form, PrevStepIndex(currentStep))
    ensures NextStepIndex(form, currentStep, valid) - currentStep in {0, 1}
    ensures currentStep - PrevStepIndex(currentStep) in {0, 1}
  {
  }

  /** The step reached after count successful nextStep calls. */
  function Advanced(form: FormDoc, currentStep: int, count: nat): int
    decreases count
  {
    if count == 0 then currentStep else Advanced(form, NextStepIndex(form, currentStep, true), count - 1)
  }

  /** From the first step of a multi-step form, k successful nextStep calls
      reach step k, and further calls stay on the last step. */
  lemma {:induction false} EveryStepReachable(form: FormDoc, k: nat)
    requires form.form.formType == "multi-step" && |form.steps| > 0
    ensures Advanced(form, 0, k) == if k < |form.steps| then k else |form.steps| - 1
  {
    AdvancedFrom(form, 0, k);
  }

  lemma {:induction false} AdvancedFrom(form: FormDoc, c: nat, k: nat)
    requires form.form.formType == "multi-step" && c < |form.steps|
    ensures Advanced(form, c, k) == if c + k < |form.steps| then c + k else |form.steps| - 1
    decreases k
  {
    if k > 0 {
      if c < |form.steps| - 1 {
        AdvancedFrom(form, c + 1, k - 1);
      } else {
        AdvancedFrom(form, c, k - 1);
      }
    }
  }

  /** `isLastStep()`. */
  predicate IsLastStep(form: FormDoc, currentStep: int)
  {
    if form.form.formType == "" || form.form.formType == "single" then true
    else if |form.steps| == 0 then true
    else currentStep == |form.steps| - 1
  }

  /** On a form of a known type and with the step in range, the page is the
      last one exactly when a successful nextStep stays where it is. */
  lemma LastStepIffNoAdvance(form: FormDoc, currentStep: int)
    requires form.form.formType in {"", "single", "multi-step"}
    requires InRange(form, currentStep)
    ensures IsLastStep(form, currentStep) <==> NextStepIndex(form, currentStep, true) == currentStep
  {
  }

  // ---------------------------------------------------------------------
  // handleSubmit

  /** One entry of the list handed to onSubmit. */
  datatype ResponseItem = ResponseItem(fieldId: string, value: Answer)

  /** `Object.entries(responses).map(([field_id, value]) => ...)`. */
  function ResponseData(responses: Entries<Answer>): (r: seq<ResponseItem>)
    ensures |r| == |responses|
    ensures forall i :: 0 <= i < |r| ==> r[i] == ResponseItem(responses[i].0, responses[i].1)
  {
    if |responses| == 0 then []
    else ResponseData(responses[..|responses| - 1]) + [ResponseItem(responses[|responses| - 1].0, responses[|responses| - 1].1)]
  }

  /** Every answered field id appears in the submitted list once, with its
      latest answer. */
  lemma ResponseDataFaithful(responses: Entries<Answer>, k: string)
    requires UniqueKeys(responses)
    ensures HasKey(responses, k) <==> exists i :: 0 <= i < |ResponseData(responses)| && ResponseData(responses)[i].fieldId == k
    ensures forall i :: 0 <= i < |ResponseData(responses)| && ResponseData(responses)[i].fieldId == k ==>
      Get(responses, k) == Some(ResponseData(responses)[i].value)
  {
    var r := ResponseData(responses);
    forall i | 0 <= i < |r| && r[i].fieldId == k
      ensures HasKey(responses, k) && Get(responses, k) == Some(r[i].value)
    {
      assert responses[i].0 == k;
      GetAt(responses, k, i);
    }
    if HasKey(responses, k) {
      var i :| 0 <= i < |responses| && responses[i].0 == k;
      assert ResponseData(responses)[i].fieldId == k;
    } else {
      assert forall i :: 0 <= i < |r| ==> r[i].fieldId != k by {
        assert forall i :: 0 <= i < |r| ==> r[i].fieldId == responses[i].0;
      }
    }
  }

  /** The touched object a failed submit installs: one true entry per id. */
  function TouchedFor(fs: seq<FieldRow>): (t: map<string, bool>)
    ensures forall k :: k in t <==> exists i :: 0 <= i < |fs| && fs[i].id == k
    ensures forall k :: k in t ==> t[k]
    decreases |fs|
  {
    if |fs| == 0 then map[]
    else
      var p := fs[..|fs| - 1];
      assert forall i :: 0 <= i < |p| ==> p[i] == fs[i];
      TouchedFor(p)[fs[|fs| - 1].id := true]
  }

  lemma TouchedForSnoc(fs: seq<FieldRow>, i: int)
    requires 0 <= i < |fs|
    ensures TouchedFor(fs[..i + 1]) == TouchedFor(fs[..i])[fs[i].id := true]
  {
    assert fs[..i + 1][..i] == fs[..i];
  }

  /** The forEach that builds the touched object of a failed submit. */
  method TouchFields(allFields: seq<FieldRow>) returns (touchedFields: map<string, bool>)
    ensures touchedFields == TouchedFor(allFields)
  {
    touchedFields := map[];
    var i := 0;
    while i < |allFields|
      invariant 0 <= i <= |allFields|
      invariant touchedFields == TouchedFor(allFields[..i])
    {
      TouchedForSnoc(allFields, i);
      touchedFields := touchedFields[allFields[i].id := true];
      i := i + 1;
    }
    assert allFields[..i] == allFields;
  }

  datatype SubmitOutcome =
    | Blocked
    | NoHandler
    | Handed(data: seq<ResponseItem>)

  /** A `{ ...prev, [fieldId]: '' }` when the field has a non-empty error. */
  function ClearError(errors: map<string, string>, fieldId: string): (r: map<string, string>)
    ensures forall k :: k in r <==> k in errors
    ensures fieldId in r ==> r[fieldId] == ""
    ensures forall k | k in errors && k != fieldId :: r[k] == errors[k]
  {
    if fieldId in errors && errors[fieldId] != "" then errors[fieldId := ""] else errors
  }

  // ---------------------------------------------------------------------
  // The viewer's state

  class Viewer {
    const form: FormDoc
    var responses: Entries<Answer>
    var currentStep: int
    var errors: map<string, string>
    var touched: map<string, bool>

    predicate Valid()
      reads this
    {
      InRange(form, currentStep)
    }

    constructor(form: FormDoc)
      ensures this.form == form
      ensures responses == [] && currentStep == 0 && errors == map[] && touched == map[]
      ensures Valid()
    {
      this.form := form;
      responses := [];
      currentStep := 0;
      errors := map[];
      touched := map[];
    }

    /** Checks the fields of the current page and replaces the errors. */
    method ValidateForm() returns (isValid: bool)
      modifies this`errors
      ensures errors == ErrorsOf(ValidationScope(form, currentStep), FieldCheck(responses))
      ensures isValid == AllValid(ValidationScope(form, currentStep), FieldCheck(responses))
    {
      var fieldsToValidate := ValidationScope(form, currentStep);
      var newErrors: map<string, string> := map[];
      isValid := true;
      var i := 0;
      while i < |fieldsToValidate|
        invariant 0 <= i <= |fieldsToValidate|
        invariant newErrors == ErrorsOf(fieldsToValidate[..i], FieldCheck(responses))
        invariant isValid == AllValid(fieldsToValidate[..i], FieldCheck(responses))
      {
        var field := fieldsToValidate[i];
        var error := ValidateField(Get(responses, field.id), field);
        ErrorsOfSnoc(fieldsToValidate, i, FieldCheck(responses));
        if error != "" {
          newErrors := newErrors[field.id := error];
          isValid := false;
        }
        i := i + 1;
      }
      assert fieldsToValidate[..i] == fieldsToValidate;
      errors := newErrors;
    }

    /** Records an answer, marks the field touched and clears its error. */
    method HandleFieldChange(fieldId: string, value: Answer)
      modifies this`responses, this`touched, this`errors
      ensures responses == Put(old(responses), fieldId, value)
      ensures touched == old(touched)[fieldId := true]
      ensures errors == ClearError(old(errors), fieldId)
    {
      responses := Put(responses, fieldId, value);
      touched := touched[fieldId := true];
      if fieldId in errors && errors[fieldId] != "" {
        errors := errors[fieldId := ""];
      }
    }

    /** Marks the field touched and records its error, if it has one. */
    method HandleFieldBlur(fieldId: string, field: FieldRow)
      modifies this`touched, this`errors
      ensures touched == old(touched)[fieldId := true]
      ensures var e := ValidateField(Get(responses, fieldId), field);
        errors == if e != "" then old(errors)[fieldId := e] else old(errors)
    {
      touched := touched[fieldId := true];
      var error := ValidateField(Get(responses, fieldId), field);
      if error != "" {
        errors := errors[fieldId := error];
      }
    }

    method NextStep()
      requires Valid()
      modifies this`errors, this`currentStep
      ensures errors == ErrorsOf(ValidationScope(form, old(currentStep)), FieldCheck(responses))
      ensures currentStep == NextStepIndex(form, old(currentStep), AllValid(ValidationScope(form, old(currentStep)), FieldCheck(responses)))
      ensures Valid()
    {
      var ok := ValidateForm();
      if !ok {
        return;
      }
      if form.form.formType == "multi-step" && currentStep < |form.steps| - 1 {
        currentStep := currentStep + 1;
      }
    }

    method PrevStep()
      requires Valid()
      modifies this`currentStep
      ensures currentStep == PrevStepIndex(old(currentStep))
      ensures Valid()
    {
      if currentStep > 0 {
        currentStep := currentStep - 1;
      }
    }

    /** Validates the page; on failure marks the fields without a step as
      the only touched ones, otherwise hands the answers to the submit
      callback when there is one. */
    method HandleSubmit(hasOnSubmit: bool) returns (outcome: SubmitOutcome)
      modifies this`errors, this`touched
      ensures errors == ErrorsOf(ValidationScope(form, currentStep), FieldCheck(responses))
      ensures AllValid(ValidationScope(form, currentStep), FieldCheck(responses)) ==> touched == old(touched)
      ensures !AllValid(ValidationScope(form, currentStep), FieldCheck(responses)) ==>
        touched == TouchedFor(Filter(form.fields, Unstepped))
      ensures outcome == if !AllValid(ValidationScope(form, currentStep), FieldCheck(responses)) then Blocked
        else if hasOnSubmit then Handed(ResponseData(responses)) else NoHandler
    {
      var ok := ValidateForm();
      if !ok {
        var touchedFields := TouchFields(Filter(form.fields, Unstepped));
        touched := touchedFields;
        return Blocked;
      }
      if hasOnSubmit {
        outcome := Handed(ResponseData(responses));
      } else {
        outcome := NoHandler;
      }
    }
  }
}
