/**
 The aggregation half of `handleSubmit`: the `fields` record of the result, one
 entry per declared field whose value is not `undefined`, and the `formInfo` header.
 */
module Aggregate {
  import opened Wrappers
  import opened Entries
  import opened Js
  import opened Types
  import Normalize

  /** Walks the entries in order and writes `out[key] = entry(key, field, value)`
      for every key whose value is not `undefined`; a repeated key is overwritten. */
  function CollectFields<F>(acc: map<string, ResultField>, p: Entries<F>, bag: Bag,
                            entry: (string, F, Value) -> ResultField): (r: map<string, ResultField>)
    ensures forall k :: k in r <==> k in acc || (HasKey(p, k) && Read(bag, k) != Undefined)
    ensures forall k :: k in r ==>
              r[k] == if HasKey(p, k) && Read(bag, k) != Undefined then entry(k, Find(p, k).value, Read(bag, k))
                      else acc[k]
  {
    if |p| == 0 then acc
    else
      var init := p[..|p| - 1];
      var m := CollectFields(acc, init, bag, entry);
      var k := p[|p| - 1].0;
      HasKeySplit(p);
      if Read(bag, k) != Undefined then m[k := entry(k, p[|p| - 1].1, Read(bag, k))] else m
  }

  // ---- Multi-step ----

  /** The entry for a step field: its label as title and its own `required` flag. */
  function StepEntry(k: string, f: FormField, v: Value): ResultField
  {
    ResultField(k, v, f.fieldType, f.fieldLabel, f.required)
  }

  /** The declaration of `k` that the aggregation keeps: the one in the last step
      that declares `k`. */
  function LastDeclaration(steps: seq<FormStep>, k: string): Option<FormField>
  {
    if |steps| == 0 then None
    else
      match Find(steps[|steps| - 1].schema.properties, k)
      case Some(f) => Some(f)
      case None => LastDeclaration(steps[..|steps| - 1], k)
  }

  /** Fields of every step, not only the current one: an entry for each key some
      step declares and whose value is not `undefined`, built from the last
      declaration of that key. */
  function CollectSteps(steps: seq<FormStep>, bag: Bag): (r: map<string, ResultField>)
    ensures forall k :: k in r <==> LastDeclaration(steps, k).Some? && Read(bag, k) != Undefined
    ensures forall k :: k in r ==> r[k] == StepEntry(k, LastDeclaration(steps, k).value, Read(bag, k))
  {
    if |steps| == 0 then map[]
    else
      CollectFields(CollectSteps(steps[..|steps| - 1], bag), steps[|steps| - 1].schema.properties, bag, StepEntry)
  }

  // ---- Simple ----

  /** The entry for a simple field: "object" is reported as "file", and required-ness
      comes from the schema-level `required` list. */
  function SimpleEntry(required: seq<string>, k: string, f: SimpleField, v: Value): ResultField
  {
    ResultField(k, v, if f.fieldType == "object" then "file" else f.fieldType, f.title, k in required)
  }

  function CollectSimple(s: SimpleFormSchema, bag: Bag): (r: map<string, ResultField>)
    ensures forall k :: k in r <==> HasKey(s.properties, k) && Read(bag, k) != Undefined
    ensures forall k :: k in r ==> r[k] == SimpleEntry(s.required, k, Find(s.properties, k).value, Read(bag, k))
  {
    CollectFields(map[], s.properties, bag, (k, f, v) => SimpleEntry(s.required, k, f, v))
  }

  /** When every entered value is declared by some step and defined, the
      multi-step result holds exactly the entered fields. */
  lemma DeclaredStepDataCollected(steps: seq<FormStep>, bag: Bag)
    requires forall k :: k in bag ==> LastDeclaration(steps, k).Some? && bag[k] != Undefined
    ensures CollectSteps(steps, bag).Keys == bag.Keys
  {
  }

  /** When every entered value is declared and defined, the simple-form result
      holds exactly the entered fields. */
  lemma DeclaredDataCollected(s: SimpleFormSchema, bag: Bag)
    requires forall k :: k in bag ==> HasKey(s.properties, k) && bag[k] != Undefined
    ensures CollectSimple(s, bag).Keys == bag.Keys
  {
  }

  /** The result record: the header with the submission time the caller supplies,
      and the fields of the form's dialect. */
  function Aggregate(form: FormJson, bag: Bag, now: string): (r: FormResult)
    ensures r.formInfo == FormInfo(form.id, form.title, form.IsMultiStep(), now)
    ensures form.body.MultiStep? ==> r.fields == CollectSteps(form.body.steps, bag)
    ensures form.body.Simple? ==> r.fields == CollectSimple(form.body.schema, bag)
  {
    var fields := match form.body
      case MultiStep(steps) => CollectSteps(steps, bag)
      case Simple(s) => CollectSimple(s, bag);
    FormResult(FormInfo(form.id, form.title, form.IsMultiStep(), now), fields)
  }

  /** Every emitted entry describes its own key with the value the form data holds
      for it; fields never set are left out. */
  lemma EntriesCarryTheirValue(form: FormJson, bag: Bag, now: string, k: string)
    requires k in Aggregate(form, bag, now).fields
    ensures Aggregate(form, bag, now).fields[k].name == k
    ensures k in bag && Aggregate(form, bag, now).fields[k].value == bag[k] != Undefined
  {
  }

  /** The "file" type in a simple form's result matches the normaliser's data-url
      rewrite: a field shown as a file picker is reported as "file", and a field
      reported as "file" was either shown as a file picker or declared "file". */
  lemma FileTypeMatchesNormaliser(s: SimpleFormSchema, bag: Bag, i: int)
    requires KeysDistinct(s.properties) && 0 <= i < |s.properties|
    requires s.properties[i].0 in CollectSimple(s, bag)
    ensures var g := Normalize.ConvertSimple(s).properties[i].1;
            var e := CollectSimple(s, bag)[s.properties[i].0];
            && (Normalize.IsFileField(g) ==> e.fieldType == "file")
            && (e.fieldType == "file" ==> Normalize.IsFileField(g) || g.fieldType == "file")
  {
    FindDistinct(s.properties, i);
  }
}
