/**
 The record shapes the component consumes and produces (the interfaces of
 src/types/index.ts), plus the canonical object schema both normalisers build.
 JSON property maps are entry sequences (module Entries); `type` is spelled `fieldType` and `label` `fieldLabel` (both are Dafny keywords).
 */
module Types {
  import opened Wrappers
  import opened Entries
  import opened Js

  // ---- Multi-step dialect ----

  datatype Limits = Limits(maxLength: Option<int>, minLength: Option<int>)

  /** `FormField`: one field of a step, with its own `required` flag. */
  datatype FormField = FormField(
    id: string,
    name: string,
    fieldType: string,
    fieldLabel: string,
    required: bool,
    description: Option<string>,
    placeholder: Option<string>,
    validation: Option<Limits>)

  /** `FormStep["schema"]`. */
  datatype StepSchema = StepSchema(
    schemaType: string,
    required: seq<string>,
    properties: Entries<FormField>)

  datatype FormStep = FormStep(id: string, title: string, schema: StepSchema)

  // ---- Simple dialect ----

  /** A property of a `SimpleFormSchema`. */
  datatype SimpleField = SimpleField(
    fieldType: string,
    title: string,
    placeholder: Option<string>,
    maxLength: Option<int>,
    minLength: Option<int>,
    enumValues: Option<seq<string>>,
    enumNames: Option<seq<string>>)

  /** `SimpleFormSchema`: required-ness is declared once, at the schema level. */
  datatype SimpleFormSchema = SimpleFormSchema(
    schemaId: string,
    schemaType: string,
    title: string,
    required: seq<string>,
    properties: Entries<SimpleField>,
    description: Option<string>)

  // ---- The form description handed to the component ----

  /** `json_schema`, tagged by dialect. The source tells the two apart by the
      `isMultiStep` flag alone and casts; here the flag is the tag. */
  datatype Body = MultiStep(steps: seq<FormStep>) | Simple(schema: SimpleFormSchema)

  /** `FormJsonStructure`, without the three timestamps the component never reads. */
  datatype FormJson = FormJson(
    id: int,
    documentId: string,
    title: string,
    description: Option<string>,
    body: Body)
  {
    predicate IsMultiStep() { body.MultiStep? }
  }

  // ---- Canonical schema (what `RJSFSchema` holds here) ----

  /** One property of the canonical schema: every constraint is optional and an
      absent one is left out, never defaulted. */
  datatype FieldSchema = FieldSchema(
    fieldType: string,
    title: Option<string>,
    description: Option<string>,
    placeholder: Option<string>,
    minLength: Option<int>,
    maxLength: Option<int>,
    minimum: Option<int>,
    maximum: Option<int>,
    pattern: Option<string>,
    enumValues: Option<seq<string>>,
    enumNames: Option<seq<string>>,
    format: Option<string>)

  /** `{ type: "object", properties, required }`; the type is always "object". */
  datatype ObjectSchema = ObjectSchema(properties: Entries<FieldSchema>, required: seq<string>)

  // ---- Result ----

  datatype ResultField = ResultField(name: string, value: Value, fieldType: string, title: string, required: bool)

  datatype FormInfo = FormInfo(id: int, title: string, isMultiStep: bool, submittedAt: string)

  /** `FormResult`: the fields are keyed by name. */
  datatype FormResult = FormResult(formInfo: FormInfo, fields: map<string, ResultField>)
}
