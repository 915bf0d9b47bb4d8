/**
 The component's state and its event handlers: `handleChange`, `handleNext`,
 `handleBack` and `handleSubmit`, plus the guards the rendered buttons put in
 front of them. React state updates are applied in sequence.
 */
module Wizard {
  import opened Wrappers
  import opened Entries
  import opened Js
  import opened Types
  import Normalize
  import opened Validate
  import opened Aggregate

  /** `step`, `formData`, `submitted` and `errors`, the four `useState` cells. */
  datatype State = State(step: int, formData: Bag, submitted: bool, errors: map<string, string>)

  /** The four cells' initial values: step 0, no data, not submitted, no errors. */
  const Initial := State(0, map[], false, map[])

  /** The form can be rendered at this state: a multi-step form has a step at
      index `step`; a simple form never leaves step 0. */
  predicate InBounds(form: FormJson, st: State)
  {
    match form.body
    case MultiStep(steps) => 0 <= st.step < |steps|
    case Simple(_) => st.step == 0
  }

  /** The canonical schema validated at the current step: the current step's
      schema for a multi-step form, the whole schema for a simple one, with the
      same field names, each field carried over as its normaliser promises, the
      required fields of that step or schema, and only length, enum and file
      constraints. */
  function CurrentSchema(form: FormJson, step: int): (r: ObjectSchema)
    requires form.body.MultiStep? ==> 0 <= step < |form.body.steps|
    ensures Normalize.OnlyLengthEnumOrFile(r)
    ensures form.body.MultiStep? ==> Keys(r.properties) == Keys(form.body.steps[step].schema.properties)
    ensures form.body.Simple? ==> Keys(r.properties) == Keys(form.body.schema.properties)
                                  && r.required == form.body.schema.required
    ensures form.body.MultiStep? ==>
              var ps := form.body.steps[step].schema.properties;
              && (forall k :: k in r.required <==> exists i :: 0 <= i < |ps| && ps[i].0 == k && ps[i].1.required)
              && (forall i :: 0 <= i < |ps| ==> Normalize.CarriesStepField(ps[i].1, r.properties[i].1))
    ensures form.body.Simple? ==>
              var ps := form.body.schema.properties;
              forall i :: 0 <= i < |ps| ==> Normalize.CarriesSimpleField(ps[i].1, r.properties[i].1)
  {
    match form.body
    case MultiStep(steps) => Normalize.ConvertStep(steps[step].schema)
    case Simple(s) => Normalize.ConvertSimple(s)
  }

  /** `handleChange`: with form data, the incoming keys override the cumulative
      ones, every other key keeps its value, and the errors are cleared; without
      form data nothing changes. */
  function HandleChange(st: State, incoming: Option<Bag>): (r: State)
    ensures incoming.None? ==> r == st
    ensures incoming.Some? ==> r.errors == map[] && r.step == st.step && r.submitted == st.submitted
    ensures incoming.Some? ==> r.formData.Keys == st.formData.Keys + incoming.value.Keys
    ensures incoming.Some? ==> forall k :: Read(r.formData, k) == if k in incoming.value then incoming.value[k] else Read(st.formData, k)
  {
    match incoming
    case None => st
    case Some(data) => st.(formData := Spread(st.formData, data), errors := map[])
  }

  /** `handleNext`: validates the current step against the cumulative data,
      publishes the errors, and moves one step on exactly when there are none. */
  function HandleNext(steps: seq<FormStep>, st: State, host: Host): (r: State)
    requires 0 <= st.step < |steps|
    ensures r.formData == st.formData && r.submitted == st.submitted
    ensures r.errors == ValidateStep(Normalize.ConvertStep(steps[st.step].schema), st.formData, host).0
    ensures r.step == st.step + 1 <==> r.errors == map[]
    ensures r.step == st.step + 1 || r.step == st.step
  {
    var verdict := ValidateStep(Normalize.ConvertStep(steps[st.step].schema), st.formData, host);
    st.(step := if verdict.1 then st.step + 1 else st.step, errors := verdict.0)
  }

  /** `handleBack`: one step back and the errors cleared, with no validation. */
  function HandleBack(st: State): (r: State)
    ensures r.step == st.step - 1 && r.errors == map[]
    ensures r.formData == st.formData && r.submitted == st.submitted
  {
    st.(step := st.step - 1, errors := map[])
  }

  /** `handleSubmit`: validates the current step only (or the whole simple form),
      publishes the errors, and on success marks the form submitted and returns the
      aggregated result. A form already submitted can be submitted again. */
  function HandleSubmit(form: FormJson, st: State, host: Host, now: string): (r: (State, Option<FormResult>))
    requires form.body.MultiStep? ==> 0 <= st.step < |form.body.steps|
    ensures r.0.step == st.step && r.0.formData == st.formData
    ensures r.0.errors == ValidateStep(CurrentSchema(form, st.step), st.formData, host).0
    ensures r.1.Some? <==> r.0.errors == map[]
    ensures r.1.Some? ==> r.0.submitted && r.1.value == Aggregate.Aggregate(form, st.formData, now)
    ensures r.1.None? ==> r.0.submitted == st.submitted
  {
    var verdict := ValidateStep(CurrentSchema(form, st.step), st.formData, host);
    if verdict.1 then
      (st.(submitted := true, errors := verdict.0), Some(Aggregate.Aggregate(form, st.formData, now)))
    else
      (st.(errors := verdict.0), None)
  }

  // ---- Events as the rendered form offers them ----

  /** What the user can do: edit fields, press Back, Next or Send, or submit the
      form itself (pressing Enter in a field). Submissions carry the clock reading. */
  datatype Event = Change(incoming: Option<Bag>) | BackClick | NextClick | SendClick(now: string) | FormSubmit(now: string)

  /** One event through the UI guards: Back is disabled at step 0, Next is shown
      only before the last step and Send only from the last step on, and the form's
      own submit goes to `handleSubmit` on the last step and to `handleNext` before
      it. A simple form has only the Send button and the form's submit. */
  function Dispatch(form: FormJson, st: State, e: Event, host: Host): (r: State)
    requires InBounds(form, st)
    ensures InBounds(form, r)
    ensures r.formData == (if e.Change? then HandleChange(st, e.incoming).formData else st.formData)
  {
    match form.body
    case MultiStep(steps) =>
      var last := |steps| - 1;
      (match e
       case Change(incoming) => HandleChange(st, incoming)
       case BackClick => if st.step == 0 then st else HandleBack(st)
       case NextClick => if st.step < last then HandleNext(steps, st, host) else st
       case SendClick(now) => if st.step < last then st else HandleSubmit(form, st, host, now).0
       case FormSubmit(now) => if st.step == last then HandleSubmit(form, st, host, now).0 else HandleNext(steps, st, host))
    case Simple(_) =>
      match e
      case Change(incoming) => HandleChange(st, incoming)
      case BackClick => st
      case NextClick => st
      case SendClick(now) => HandleSubmit(form, st, host, now).0
      case FormSubmit(now) => HandleSubmit(form, st, host, now).0
  }

  /** A session: the events applied in order. The step stays within the steps at
      every point, since each event keeps it in range. */
  function Run(form: FormJson, st: State, events: seq<Event>, host: Host): (r: State)
    requires InBounds(form, st)
    ensures InBounds(form, r)
    decreases |events|
  {
    if |events| == 0 then st
    else Run(form, Dispatch(form, st, events[0], host), events[1..], host)
  }

  /** A session starts from the initial state, which every form with at least
      one step can render, and stays renderable whatever the user does. */
  lemma SessionsStayInBounds(form: FormJson, events: seq<Event>, host: Host)
    requires form.body.MultiStep? ==> |form.body.steps| > 0
    ensures InBounds(form, Initial)
    ensures InBounds(form, Run(form, Initial, events, host))
    ensures !Initial.submitted && Initial.errors == map[]
    ensures (forall i :: 0 <= i < |events| ==> !events[i].Change?) ==> Run(form, Initial, events, host).formData == map[]
  {
    if forall i :: 0 <= i < |events| ==> !events[i].Change? {
      NavigationKeepsData(form, Initial, events, host);
    }
  }

  /** Only field edits change the form data: navigation and submission never drop
      or alter a value another step entered. */
  lemma {:induction false} NavigationKeepsData(form: FormJson, st: State, events: seq<Event>, host: Host)
    requires InBounds(form, st)
    requires forall i :: 0 <= i < |events| ==> !events[i].Change?
    ensures Run(form, st, events, host).formData == st.formData
    decreases |events|
  {
    if |events| > 0 {
      NavigationKeepsData(form, Dispatch(form, st, events[0], host), events[1..], host);
    }
  }

  /** A successful submission does not block another: submitting again with the
      same data succeeds again and produces the same fields. */
  lemma ResubmissionNotBlocked(form: FormJson, st: State, host: Host, now: string, later: string)
    requires form.body.MultiStep? ==> 0 <= st.step < |form.body.steps|
    requires HandleSubmit(form, st, host, now).1.Some?
    ensures var again := HandleSubmit(form, HandleSubmit(form, st, host, now).0, host, later);
            again.1.Some? && again.1.value.fields == HandleSubmit(form, st, host, now).1.value.fields
  {
  }
}
