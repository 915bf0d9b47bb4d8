/**
 The two schema normalisers: `convertToRJSFSchema` for one step of a multi-step
 form and `convertSimpleSchemaForFiles` for a simple form. Both build the
 canonical object schema the validator reads.
 */
module Normalize {
  import opened Wrappers
  import opened Entries
  import opened Js
  import opened Types

  /** Description given to every file field of a simple form. */
  const FileDescription := "Selecione um arquivo"

  /** Format that marks a canonical field as a file picker. */
  const DataUrl := "data-url"

  // ---- Step dialect ----

  function StepField(f: FormField): FieldSchema
  {
    var minLength := if f.validation.Some? then SpreadIfTruthy(f.validation.value.minLength) else None;
    var maxLength := if f.validation.Some? then SpreadIfTruthy(f.validation.value.maxLength) else None;
    FieldSchema(f.fieldType, Some(f.fieldLabel), f.description, None,
                minLength, maxLength, None, None, None, None, None, None)
  }

  /** The keys whose field carries `required: true`, in property order. */
  function FlaggedRequired(p: Entries<FormField>): (r: seq<string>)
    ensures forall k :: k in r <==> exists i :: 0 <= i < |p| && p[i].0 == k && p[i].1.required
    ensures IsSubsequence(r, Keys(p))
  {
    if |p| == 0 then []
    else
      var rest := FlaggedRequired(p[1..]);
      assert Keys(p) == [p[0].0] + Keys(p[1..]);
      assert forall i :: 1 <= i < |p| ==> p[i] == p[1..][i - 1];
      assert forall j :: 0 <= j < |p| - 1 ==> p[1..][j] == p[j + 1];
      if p[0].1.required then
        assert ([p[0].0] + rest)[1..] == rest;
        [p[0].0] + rest
      else
        SubsequenceSkip(rest, Keys(p[1..]), p[0].0);
        rest
  }

  /** What a step field looks like once normalised: `type` and `description` copied,
      `title` is the label, `minLength`/`maxLength` present exactly when the
      `validation` entry is present and truthy, and nothing else. */
  ghost predicate CarriesStepField(f: FormField, g: FieldSchema)
  {
    var v := f.validation;
    && g.fieldType == f.fieldType
    && g.title == Some(f.fieldLabel)
    && g.description == f.description
    && (g.minLength.Some? <==> v.Some? && v.value.minLength.Some? && v.value.minLength.value != 0)
    && (g.minLength.Some? ==> g.minLength == v.value.minLength)
    && (g.maxLength.Some? <==> v.Some? && v.value.maxLength.Some? && v.value.maxLength.value != 0)
    && (g.maxLength.Some? ==> g.maxLength == v.value.maxLength)
    && g.placeholder.None? && g.minimum.None? && g.maximum.None? && g.pattern.None?
    && g.enumValues.None? && g.enumNames.None? && g.format.None?
  }

  /** `convertToRJSFSchema`. The step's own `required` array is not read: the
      output's `required` lists exactly the keys flagged `required`, in property order. */
  function ConvertStep(s: StepSchema): (r: ObjectSchema)
    ensures Keys(r.properties) == Keys(s.properties)
    ensures forall i :: 0 <= i < |s.properties| ==> CarriesStepField(s.properties[i].1, r.properties[i].1)
    ensures forall k :: k in r.required <==>
              exists i :: 0 <= i < |s.properties| && s.properties[i].0 == k && s.properties[i].1.required
    ensures IsSubsequence(r.required, Keys(s.properties))
  {
    var p := s.properties;
    ObjectSchema(seq(|p|, i requires 0 <= i < |p| => (p[i].0, StepField(p[i].1))), FlaggedRequired(p))
  }

  // ---- Simple dialect ----

  function SimpleToField(f: SimpleField): FieldSchema
  {
    if f.fieldType == "object" then
      FieldSchema("string", Some(f.title), Some(FileDescription), None,
                  None, None, None, None, None, None, None, Some(DataUrl))
    else
      FieldSchema(f.fieldType, Some(f.title), None, f.placeholder,
                  SpreadIfTruthy(f.minLength), SpreadIfTruthy(f.maxLength), None, None, None,
                  f.enumValues, f.enumNames, None)
  }

  /** A canonical field that the render layer shows as a file picker. */
  predicate IsFileField(g: FieldSchema)
  {
    g.format == Some(DataUrl)
  }

  /** What a simple field looks like once normalised: an "object" field becomes a
      data-url string field with the fixed description; any other field keeps
      type, title and placeholder and gains the length limits only when truthy
      and `enum`/`enumNames` only when present. */
  ghost predicate CarriesSimpleField(f: SimpleField, g: FieldSchema)
  {
    && g.title == Some(f.title)
    && (IsFileField(g) <==> f.fieldType == "object")
    && g.minimum.None? && g.maximum.None? && g.pattern.None?
    && (if f.fieldType == "object" then
          && g.fieldType == "string" && g.description == Some(FileDescription)
          && g.placeholder.None? && g.minLength.None? && g.maxLength.None?
          && g.enumValues.None? && g.enumNames.None?
        else
          && g.fieldType == f.fieldType && g.description.None? && g.placeholder == f.placeholder
          && g.format.None?
          && (g.minLength.Some? <==> f.minLength.Some? && f.minLength.value != 0)
          && (g.minLength.Some? ==> g.minLength == f.minLength)
          && (g.maxLength.Some? <==> f.maxLength.Some? && f.maxLength.value != 0)
          && (g.maxLength.Some? ==> g.maxLength == f.maxLength)
          && g.enumValues == f.enumValues && g.enumNames == f.enumNames)
  }

  /** `convertSimpleSchemaForFiles`: same keys, each field carried as above, and
      the schema-level `required` passed through unchanged. */
  function ConvertSimple(s: SimpleFormSchema): (r: ObjectSchema)
    ensures Keys(r.properties) == Keys(s.properties)
    ensures forall i :: 0 <= i < |s.properties| ==> CarriesSimpleField(s.properties[i].1, r.properties[i].1)
    ensures r.required == s.required
  {
    var p := s.properties;
    ObjectSchema(seq(|p|, i requires 0 <= i < |p| => (p[i].0, SimpleToField(p[i].1))), s.required)
  }

  /** Neither normaliser ever emits `minimum`, `maximum` or `pattern`, and the only
      format either emits is "data-url". */
  ghost predicate OnlyLengthEnumOrFile(schema: ObjectSchema)
  {
    forall i :: 0 <= i < |schema.properties| ==>
      var g := schema.properties[i].1;
      g.minimum.None? && g.maximum.None? && g.pattern.None? && (g.format.None? || IsFileField(g))
  }

  lemma NormalisedSchemasAreRestricted(s: StepSchema, t: SimpleFormSchema)
    ensures OnlyLengthEnumOrFile(ConvertStep(s))
    ensures OnlyLengthEnumOrFile(ConvertSimple(t))
  {
  }

  /** Normalising keeps the number of fields, and keys stay distinct. */
  lemma NormalisedKeysDistinct(s: StepSchema, t: SimpleFormSchema)
    requires KeysDistinct(s.properties) && KeysDistinct(t.properties)
    ensures |ConvertStep(s).properties| == |s.properties| && KeysDistinct(ConvertStep(s).properties)
    ensures |ConvertSimple(t).properties| == |t.properties| && KeysDistinct(ConvertSimple(t).properties)
  {
    var a := ConvertStep(s).properties;
    assert forall i :: 0 <= i < |a| ==> a[i].0 == Keys(a)[i] == Keys(s.properties)[i];
    var b := ConvertSimple(t).properties;
    assert forall i :: 0 <= i < |b| ==> b[i].0 == Keys(b)[i] == Keys(t.properties)[i];
  }
}
