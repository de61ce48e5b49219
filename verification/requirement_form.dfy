/** `NewRequirementPage.tsx`: the requirement form, its per-field change
    handlers, and the submit/cancel guard. Submitting schedules navigation to
    the shortlist with the form as it was at submit time; the timer is an
    explicit event here. */
module RequirementForm {
  import opened Wrappers

  /** `minimumExperience: number | ""`. */
  datatype MinExperience = Blank | Years(years: real)

  /** `RequirementFormValues`. */
  datatype Form = Form(
    clientName: string,
    roleTitle: string,
    requiredSkills: seq<string>,
    minimumExperience: MinExperience,
    mandatoryCertifications: string,
    availabilityDate: string,
    summary: string)

  /** The two skills the form is pre-filled with. */
  const DefaultSkills: seq<string> := ["React", "Node.js"]

  /** The form on first render. */
  const InitialForm: Form := Form("", "", DefaultSkills, Blank, "", "", "")

  /** The form after Cancel: everything empty, the skill list included. */
  const ClearedForm: Form := Form("", "", [], Blank, "", "", "")

  /** The text-valued fields. */
  datatype TextField = ClientName | RoleTitle | MandatoryCertifications | AvailabilityDate | Summary

  /** Every field of the form. */
  datatype Field = Text(f: TextField) | RequiredSkills | MinimumExperience

  /** The value of a field. */
  datatype Value = TextValue(s: string) | TagsValue(tags: seq<string>) | ExperienceValue(e: MinExperience)

  function Get(form: Form, field: Field): Value {
    match field
    case Text(ClientName) => TextValue(form.clientName)
    case Text(RoleTitle) => TextValue(form.roleTitle)
    case Text(MandatoryCertifications) => TextValue(form.mandatoryCertifications)
    case Text(AvailabilityDate) => TextValue(form.availabilityDate)
    case Text(Summary) => TextValue(form.summary)
    case RequiredSkills => TagsValue(form.requiredSkills)
    case MinimumExperience => ExperienceValue(form.minimumExperience)
  }

  /** A value fits a field when it has the field's type. */
  predicate Fits(field: Field, v: Value) {
    match field
    case Text(_) => v.TextValue?
    case RequiredSkills => v.TagsValue?
    case MinimumExperience => v.ExperienceValue?
  }

  /** `handleChange(field)(value)`: `{ ...prev, [field]: value }`. The
      callers always pass a value of the field's type. */
  function HandleChange(form: Form, field: Field, v: Value): (r: Form)
    requires Fits(field, v)
    ensures Get(r, field) == v
    ensures forall g :: g != field ==> Get(r, g) == Get(form, g)
  {
    match field
    case Text(ClientName) => form.(clientName := v.s)
    case Text(RoleTitle) => form.(roleTitle := v.s)
    case Text(MandatoryCertifications) => form.(mandatoryCertifications := v.s)
    case Text(AvailabilityDate) => form.(availabilityDate := v.s)
    case Text(Summary) => form.(summary := v.s)
    case RequiredSkills => form.(requiredSkills := v.tags)
    case MinimumExperience => form.(minimumExperience := v.e)
  }

  /** Two forms with the same value in every field are the same form, so
      `Get` captures all of a form. */
  lemma FieldsDetermineForm(a: Form, b: Form)
    requires forall g :: Get(a, g) == Get(b, g)
    ensures a == b
  {
    assert Get(a, Text(ClientName)) == Get(b, Text(ClientName));
    assert Get(a, Text(RoleTitle)) == Get(b, Text(RoleTitle));
    assert Get(a, Text(MandatoryCertifications)) == Get(b, Text(MandatoryCertifications));
    assert Get(a, Text(AvailabilityDate)) == Get(b, Text(AvailabilityDate));
    assert Get(a, Text(Summary)) == Get(b, Text(Summary));
    assert Get(a, RequiredSkills) == Get(b, RequiredSkills);
    assert Get(a, MinimumExperience) == Get(b, MinimumExperience);
  }

  /** Writing back a field's own value changes nothing; two writes to the
      same field keep the last. */
  lemma HandleChangeLaws(form: Form, field: Field, v: Value, w: Value)
    requires Fits(field, v) && Fits(field, w)
    ensures HandleChange(form, field, Get(form, field)) == form
    ensures HandleChange(HandleChange(form, field, v), field, w) == HandleChange(form, field, w)
  {
    var same := HandleChange(form, field, Get(form, field));
    FieldsDetermineForm(same, form);
    var twice := HandleChange(HandleChange(form, field, v), field, w);
    FieldsDetermineForm(twice, HandleChange(form, field, w));
  }

  /** `handleInputChange(field)`: the experience box turns its text into a
      number unless it is empty; `toNumber` stands for JavaScript's
      `Number(...)`. */
  function InputValue(field: Field, text: string, toNumber: string -> real): (v: Value)
    ensures field == MinimumExperience && text == [] ==> v == ExperienceValue(Blank)
    ensures field == MinimumExperience && text != [] ==> v == ExperienceValue(Years(toNumber(text)))
    ensures field != MinimumExperience ==> v == TextValue(text)
  {
    if field == MinimumExperience then
      (if text == [] then ExperienceValue(Blank) else ExperienceValue(Years(toNumber(text))))
    else TextValue(text)
  }

  /** Every field that has a text input receives a value of its type. */
  lemma InputValueFits(field: Field, text: string, toNumber: string -> real)
    requires field != RequiredSkills
    ensures Fits(field, InputValue(field, text, toNumber))
  {
  }

  // ---------------------------------------------------------------------
  // Page state
  // ---------------------------------------------------------------------

  /** The page: the form, `isSubmitting`, the requirement the pending timer
      will navigate with, and where the page has navigated to. */
  datatype Page = Page(form: Form, submitting: bool, pending: Option<Form>, navigated: Option<Form>)

  const InitialPage: Page := Page(InitialForm, false, None, None)

  datatype Event =
    | Change(field: Field, v: Value)
    | Submit
    | Cancel
    | TimerFires

  /** Only values of the field's type are ever passed to a change handler. */
  predicate WellTyped(e: Event) {
    e.Change? ==> Fits(e.field, e.v)
  }

  /** The fields stay editable while submitting; only the buttons are
      disabled, and both handlers also check the flag. */
  function Step(p: Page, e: Event): Page
    requires WellTyped(e)
  {
    match e
    case Change(field, v) => p.(form := HandleChange(p.form, field, v))
    case Submit => if p.submitting then p else p.(submitting := true, pending := Some(p.form))
    case Cancel => if p.submitting then p else p.(form := ClearedForm)
    case TimerFires => if p.pending.Some? then p.(navigated := p.pending) else p
  }

  function Run(p: Page, es: seq<Event>): Page
    requires forall k :: 0 <= k < |es| ==> WellTyped(es[k])
    decreases |es|
  {
    if es == [] then p else Run(Step(p, es[0]), es[1..])
  }

  /** The initial form differs from the cleared one only in its skills. */
  lemma InitialVersusCleared()
    ensures InitialForm != ClearedForm
    ensures InitialForm == ClearedForm.(requiredSkills := DefaultSkills)
    ensures forall g :: g != RequiredSkills ==> Get(InitialForm, g) == Get(ClearedForm, g)
  {
  }

  /** Submit sets the flag and captures the form; a second Submit is a
      no-op. */
  lemma SubmitGuard(p: Page)
    ensures !p.submitting ==> Step(p, Submit) == p.(submitting := true, pending := Some(p.form))
    ensures Step(Step(p, Submit), Submit) == Step(p, Submit)
  {
  }

  /** Cancel clears every field unless a submission is under way. */
  lemma CancelGuard(p: Page)
    ensures p.submitting ==> Step(p, Cancel) == p
    ensures !p.submitting ==> Step(p, Cancel).form == ClearedForm
    ensures Step(p, Cancel).submitting == p.submitting && Step(p, Cancel).pending == p.pending
  {
  }

  /** Once a form has been captured, nothing the user does afterwards — more
      edits, more submits, cancel — changes what the page navigates with. */
  lemma {:induction false} CapturedStaysCaptured(p: Page, es: seq<Event>, f: Form)
    requires forall k :: 0 <= k < |es| ==> WellTyped(es[k])
    requires p.submitting && p.pending == Some(f)
    requires p.navigated == None || p.navigated == Some(f)
    ensures Run(p, es).submitting && Run(p, es).pending == Some(f)
    ensures Run(p, es).navigated == None || Run(p, es).navigated == Some(f)
    decreases |es|
  {
    if es != [] {
      CapturedStaysCaptured(Step(p, es[0]), es[1..], f);
    }
  }

  /** The requirement that reaches the shortlist is the form as it was when
      Submit was pressed, even if fields were edited while waiting. */
  lemma NavigatesWithSubmittedForm(p: Page, es: seq<Event>)
    requires !p.submitting && p.navigated == None
    requires forall k :: 0 <= k < |es| ==> WellTyped(es[k])
    ensures var q := Run(Step(p, Submit), es);
            q.navigated.Some? ==> q.navigated == Some(p.form)
    ensures Step(Run(Step(p, Submit), es), TimerFires).navigated == Some(p.form)
  {
    CapturedStaysCaptured(Step(p, Submit), es, p.form);
  }

  /** Before any submit there is nothing to navigate with: the timer only
      exists after a submit. */
  lemma {:induction false} NoNavigationWithoutSubmit(p: Page, es: seq<Event>)
    requires p.pending == None && p.navigated == None
    requires forall k :: 0 <= k < |es| ==> WellTyped(es[k]) && es[k] != Submit
    ensures Run(p, es).navigated == None && Run(p, es).pending == None
    decreases |es|
  {
    if es != [] {
      NoNavigationWithoutSubmit(Step(p, es[0]), es[1..]);
    }
  }
}
