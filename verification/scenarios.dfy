/**
 Concrete runs of the model on small forms: the required and format examples,
 navigation across steps, and submissions of a simple and of a multi-step form.
 */
module Scenarios {
  import opened Wrappers
  import opened Entries
  import opened Js
  import opened Types
  import opened Normalize
  import opened Validate
  import opened Aggregate
  import opened Wizard

  /** A platform whose regular expressions and URLs always match. */
  const Lenient := Host((pattern, s) => true, s => true)

  function Plain(fieldType: string, title: string): FieldSchema
  {
    FieldSchema(fieldType, Some(title), None, None, None, None, None, None, None, None, None, None)
  }

  /** A required e-mail field with no value gets exactly the "required" message. */
  lemma MissingRequiredEmail()
    ensures ValidateStep(ObjectSchema([("email", Plain("string", "Email"))], ["email"]), map[], Lenient)
            == (map["email" := "Email é obrigatório"], false)
  {
    var schema := ObjectSchema([("email", Plain("string", "Email"))], ["email"]);
    var issues := Issues(schema, map[], Lenient);
    assert RequiredMissing(schema, map[], "email");
    assert RuleViolations(schema, map[], "email", Lenient) == [];
    assert issues.Keys == {"email"};
    assert issues["email"] == Required;
    assert Title(schema.properties, "email") == "Email";
    assert Message("Email", Required) == "Email é obrigatório";
    var r := ValidateStep(schema, map[], Lenient);
    assert r.0.Keys == {"email"};
    assert r.0["email"] == "Email é obrigatório";
    assert r.0 == map["email" := "Email é obrigatório"];
  }

  const EmailField := Plain("string", "Email").(format := Some("email"))

  const EmailSchema := ObjectSchema([("email", EmailField)], [])

  /** An optional e-mail field passes exactly when it is left empty or holds an
      e-mail address. */
  lemma EmailFieldVerdict(s: string)
    ensures ValidateStep(EmailSchema, map["email" := Str(s)], Lenient).1 <==> s == "" || Formats.IsEmail(s)
  {
    var bag := map["email" := Str(s)];
    assert Find(EmailSchema.properties, "email") == Some(EmailField);
    assert RuleViolations(EmailSchema, bag, "email", Lenient)
           == if s == "" || Formats.IsEmail(s) then [] else [Email];
    assert forall k :: k in bag <==> k == "email";
  }

  /** The e-mail format rejects "not-an-email" and accepts "a@b.com". */
  lemma EmailFormat()
    ensures !ValidateStep(EmailSchema, map["email" := Str("not-an-email")], Lenient).1
    ensures ValidateStep(EmailSchema, map["email" := Str("a@b.com")], Lenient).1
  {
    Formats.EmailAccepted();
    Formats.EmailRejected();
    EmailFieldVerdict("not-an-email");
    EmailFieldVerdict("a@b.com");
  }

  const Blank := Str("   ")

  lemma BlankIsMissing()
    ensures IsTruthy(Blank) && IsMissing(Blank) && Utf16Length(Blank.s) == 3
  {
    assert IsBlank(Blank.s) by {
      assert forall i :: 0 <= i < 3 ==> Blank.s[i] == ' ';
    }
    Js.TrimEmptyIffBlank(Blank.s);
  }

  /** A blank value breaks a `minLength` bound exactly when the bound exceeds
      its three code units, and breaks nothing else. */
  lemma BlankViolations(f: FieldSchema, bound: int)
    requires f == Plain("string", "Nome").(minLength := Some(bound))
    ensures Violations(f, Blank, Lenient) == if 3 < bound then [MinLength(bound)] else []
  {
    BlankIsMissing();
    assert BreaksMinLength(f, Blank) <==> 3 < bound;
    assert !BreaksMaxLength(f, Blank) && !BreaksMinimum(f, Blank) && !BreaksMaximum(f, Blank);
    assert !BreaksPattern(f, Blank, Lenient) && !BreaksEnum(f, Blank);
    assert FormatViolation(f, Blank, Lenient) == None;
  }

  /** Reading a one-property map. */
  lemma OneEntryFind<T>(p: Entries<T>, name: string, x: T)
    requires p == [(name, x)]
    ensures forall k :: Find(p, k) == if k == name then Some(x) else None
  {
    forall k
      ensures Find(p, k) == if k == name then Some(x) else None
    {
      if k != name {
        assert !HasKey(p, k);
      }
    }
  }

  /** A one-field schema reports issues for its own field only. */
  lemma OneFieldIssuesOnly(schema: ObjectSchema, bag: Bag, name: string, f: FieldSchema)
    requires schema == ObjectSchema([(name, f)], [name])
    ensures forall k :: k in Issues(schema, bag, Lenient) ==> k == name
  {
    OneEntryFind(schema.properties, name, f);
    forall k | k != name
      ensures k !in Issues(schema, bag, Lenient)
    {
      assert RuleViolations(schema, bag, k, Lenient) == [];
    }
  }

  /** A required one-field schema whose field holds a truthy value that still
      counts as missing: the error is the last broken rule, else "required". */
  lemma TruthyMissingIssue(schema: ObjectSchema, bag: Bag, name: string, f: FieldSchema, v: Value)
    requires schema == ObjectSchema([(name, f)], [name]) && bag == map[name := v]
    requires IsTruthy(v) && IsMissing(v)
    ensures Issues(schema, bag, Lenient)
            == map[name := if Violations(f, v, Lenient) != [] then Last(Violations(f, v, Lenient)) else Required]
  {
    OneFieldIssuesOnly(schema, bag, name, f);
    OneEntryFind(schema.properties, name, f);
    assert RuleViolations(schema, bag, name, Lenient) == Violations(f, v, Lenient);
    assert RequiredMissing(schema, bag, name);
    var a := Issues(schema, bag, Lenient);
    assert name in a;
    assert a.Keys == {name};
    assert a == map[name := a[name]];
  }

  lemma BlankIssues(f: FieldSchema, schema: ObjectSchema, bag: Bag, bound: int)
    requires f == Plain("string", "Nome").(minLength := Some(bound))
    requires schema == ObjectSchema([("nome", f)], ["nome"]) && bag == map["nome" := Blank]
    ensures Issues(schema, bag, Lenient) == map["nome" := if 3 < bound then MinLength(bound) else Required]
  {
    BlankIsMissing();
    BlankViolations(f, bound);
    TruthyMissingIssue(schema, bag, "nome", f, Blank);
  }

  /** A blank required value is truthy, so the rule pass runs and its message
      replaces the "required" one; with no rule broken, "required" stays. */
  lemma BlankRequiredValue(bound: int)
    ensures var schema := ObjectSchema([("nome", Plain("string", "Nome").(minLength := Some(bound)))], ["nome"]);
            Issues(schema, map["nome" := Blank], Lenient)
            == map["nome" := if 3 < bound then MinLength(bound) else Required]
  {
    var f := Plain("string", "Nome").(minLength := Some(bound));
    BlankIssues(f, ObjectSchema([("nome", f)], ["nome"]), map["nome" := Blank], bound);
  }

  function Field(name: string, caption: string, required: bool): FormField
  {
    FormField(name, name, "string", caption, required, None, None, None)
  }

  function OneFieldStep(name: string, caption: string): FormStep
  {
    FormStep(name, caption, StepSchema("object", [name], [(name, Field(name, caption, true))]))
  }

  const TwoSteps := [OneFieldStep("nome", "Nome"), OneFieldStep("email", "E-mail")]

  const TwoStepForm := FormJson(2, "cadastro", "Cadastro", None, MultiStep(TwoSteps))

  lemma NotMissing(s: string)
    requires |s| > 0 && !IsWhitespace(s[0])
    ensures !IsMissing(Str(s))
  {
    Js.TrimEmptyIffBlank(s);
  }

  /** A step field with no `validation` normalises to a field no value can break. */
  lemma PlainStepFieldBreaksNothing(name: string, caption: string, v: Value)
    ensures Violations(StepField(Field(name, caption, true)), v, Lenient) == []
  {
    var f := StepField(Field(name, caption, true));
    assert FormatViolation(f, v, Lenient) == None;
  }

  /** The canonical schema of a one-field step. */
  lemma OneFieldStepSchema(name: string, caption: string)
    ensures ConvertStep(OneFieldStep(name, caption).schema)
            == ObjectSchema([(name, StepField(Field(name, caption, true)))], [name])
  {
    var p := OneFieldStep(name, caption).schema.properties;
    assert FlaggedRequired(p) == [name] by {
      assert FlaggedRequired(p[1..]) == [];
    }
  }

  /** A one-field step validates as soon as its field holds a non-blank string. */
  lemma OneFieldStepValid(name: string, caption: string, bag: Bag)
    requires name in bag && bag[name].Str? && |bag[name].s| > 0 && !IsWhitespace(bag[name].s[0])
    ensures ValidateStep(ConvertStep(OneFieldStep(name, caption).schema), bag, Lenient).1
  {
    OneFieldStepSchema(name, caption);
    var schema := ConvertStep(OneFieldStep(name, caption).schema);
    NotMissing(bag[name].s);
    forall k | k in bag
      ensures RuleViolations(schema, bag, k, Lenient) == []
    {
      if k == name {
        PlainStepFieldBreaksNothing(name, caption, bag[k]);
      }
    }
  }

  /** Next with the first step filled moves to the second step and keeps the
      data; Back returns to the first step and clears the errors. */
  lemma NextThenBack()
    ensures var st := State(0, map["nome" := Str("Ana")], false, map[]);
            var next := HandleNext(TwoSteps, st, Lenient);
            && next.step == 1 && next.formData == st.formData
            && HandleBack(next) == st
  {
    assert TwoSteps[0] == OneFieldStep("nome", "Nome");
    OneFieldStepValid("nome", "Nome", map["nome" := Str("Ana")]);
  }

  const HalfFilled: Bag := map["email" := Str("ana@x.com"), "nome" := Str("")]

  /** The last step of the two-step form validates with only its own field filled. */
  lemma LastStepValid(form: FormJson, bag: Bag)
    requires form == TwoStepForm && bag == HalfFilled
    ensures ValidateStep(CurrentSchema(form, 1), bag, Lenient).1
  {
    assert TwoSteps[1] == OneFieldStep("email", "E-mail");
    OneFieldStepValid("email", "E-mail", bag);
    assert CurrentSchema(form, 1) == ConvertStep(TwoSteps[1].schema);
  }

  /** Each field of the two-step form is declared once, by its own step. */
  lemma TwoStepDeclarations(steps: seq<FormStep>)
    requires steps == TwoSteps
    ensures LastDeclaration(steps, "nome") == Some(Field("nome", "Nome", true))
    ensures LastDeclaration(steps, "email") == Some(Field("email", "E-mail", true))
  {
    OneEntryFind(steps[1].schema.properties, "email", Field("email", "E-mail", true));
    OneEntryFind(steps[0].schema.properties, "nome", Field("nome", "Nome", true));
    assert steps[..1] == [steps[0]];
  }

  /** Both steps' fields are collected, the empty string included. */
  lemma TwoStepFields(steps: seq<FormStep>, bag: Bag)
    requires steps == TwoSteps && bag == HalfFilled
    ensures CollectSteps(steps, bag).Keys == {"email", "nome"}
    ensures CollectSteps(steps, bag)["nome"] == ResultField("nome", Str(""), "string", "Nome", true)
  {
    TwoStepDeclarations(steps);
    assert bag.Keys == {"email", "nome"};
    DeclaredStepDataCollected(steps, bag);
  }

  /** Submitting on the last step validates that step only: the first step's
      required field may be empty and the submission still succeeds, with the
      fields of both steps that hold a value. */
  lemma SubmitChecksLastStepOnly()
    ensures var st := State(1, HalfFilled, false, map[]);
            var r := HandleSubmit(TwoStepForm, st, Lenient, "2024-01-01T00:00:00.000Z");
            && r.1.Some? && r.0.submitted
            && r.1.value.fields.Keys == {"email", "nome"}
            && r.1.value.fields["nome"] == ResultField("nome", Str(""), "string", "Nome", true)
  {
    LastStepValid(TwoStepForm, HalfFilled);
    TwoStepFields(TwoSteps, HalfFilled);
  }

  /** The contact form of the package's usage example: four fields, of which
      `name` and `email` are required and `subject` offers three topics. */
  const Contact := SimpleFormSchema("contact", "object", "Contato", ["name", "email"],
    [("name", SimpleField("string", "Nome completo", Some("Digite seu nome completo"), None, None, None, None)),
     ("email", SimpleField("string", "E-mail", Some("seu@email.com"), None, None, None, None)),
     ("subject", SimpleField("string", "Assunto", None, None, None, Some(Topics), Some(TopicNames))),
     ("message", SimpleField("string", "Mensagem", Some("Digite sua mensagem"), None, None, None, None))],
    None)

  const Topics := ["suporte", "vendas", "geral"]

  const TopicNames := ["Suporte Técnico", "Vendas", "Geral"]

  const ContactForm := FormJson(1, "contact-form", "Formulário de Contato", Some("Entre em contato conosco"), Simple(Contact))

  const Filled: Bag := map["name" := Str("Ana"), "email" := Str("ana@x.com")]

  /** A canonical text field with a title and maybe a placeholder, and nothing else. */
  function TextInput(title: string, placeholder: Option<string>): FieldSchema
  {
    FieldSchema("string", Some(title), None, placeholder, None, None, None, None, None, None, None, None)
  }

  /** The contact form normalised: every field stays a titled string input with
      its placeholder, `subject` keeps its three topics and their labels, no
      field becomes a file input, and `required` is passed through. */
  lemma ContactSchema(c: SimpleFormSchema)
    requires c == Contact
    ensures ConvertSimple(c) == ObjectSchema(
              [("name", TextInput("Nome completo", Some("Digite seu nome completo"))),
               ("email", TextInput("E-mail", Some("seu@email.com"))),
               ("subject", TextInput("Assunto", None).(enumValues := Some(Topics), enumNames := Some(TopicNames))),
               ("message", TextInput("Mensagem", Some("Digite sua mensagem")))],
              ["name", "email"])
  {
    var p := ConvertSimple(c).properties;
    assert p[0] == ("name", SimpleToField(c.properties[0].1));
    assert p[1] == ("email", SimpleToField(c.properties[1].1));
    assert p[2] == ("subject", SimpleToField(c.properties[2].1));
    assert p[3] == ("message", SimpleToField(c.properties[3].1));
  }

  /** The contact form's field names are distinct. */
  lemma ContactKeysDistinct(c: SimpleFormSchema)
    requires c == Contact
    ensures KeysDistinct(c.properties)
  {
    var p := c.properties;
    assert p[0].0 == "name" && p[1].0 == "email" && p[2].0 == "subject" && p[3].0 == "message";
  }

  /** A field with no bound, pattern, enum or format. */
  predicate Unconstrained(f: FieldSchema)
  {
    && f.minLength.None? && f.maxLength.None? && f.minimum.None? && f.maximum.None?
    && f.pattern.None? && f.enumValues.None? && f.format.None?
  }

  /** Data whose every declared field is unconstrained breaks no rule. */
  lemma UnconstrainedDataPasses(schema: ObjectSchema, bag: Bag)
    requires forall k :: k in bag && Find(schema.properties, k).Some? ==> Unconstrained(Find(schema.properties, k).value)
    ensures forall k :: k in bag ==> RuleViolations(schema, bag, k, Lenient) == []
  {
  }

  lemma ContactLookups(schema: ObjectSchema)
    requires schema == ConvertSimple(Contact)
    ensures Find(schema.properties, "name") == Some(TextInput("Nome completo", Some("Digite seu nome completo")))
    ensures Find(schema.properties, "email") == Some(TextInput("E-mail", Some("seu@email.com")))
  {
    ContactSchema(Contact);
    ContactKeysDistinct(Contact);
    Normalize.NormalisedKeysDistinct(StepSchema("object", [], []), Contact);
    FindDistinct(schema.properties, 0);
    FindDistinct(schema.properties, 1);
  }

  lemma FilledRulesPass(schema: ObjectSchema, bag: Bag, n: FieldSchema, e: FieldSchema)
    requires Find(schema.properties, "name") == Some(n) && Find(schema.properties, "email") == Some(e)
    requires Unconstrained(n) && Unconstrained(e) && bag == Filled
    ensures forall k :: k in bag ==> RuleViolations(schema, bag, k, Lenient) == []
  {
    assert bag.Keys == {"name", "email"};
    UnconstrainedDataPasses(schema, bag);
  }

  lemma ContactRulesPass()
    ensures forall k :: k in Filled ==> RuleViolations(ConvertSimple(Contact), Filled, k, Lenient) == []
  {
    var n, e := TextInput("Nome completo", Some("Digite seu nome completo")), TextInput("E-mail", Some("seu@email.com"));
    ContactLookups(ConvertSimple(Contact));
    FilledRulesPass(ConvertSimple(Contact), Filled, n, e);
  }

  lemma ContactRequiredPresent()
    ensures forall k :: k in ConvertSimple(Contact).required ==> !IsMissing(Read(Filled, k))
  {
    NotMissing("Ana");
    NotMissing("ana@x.com");
    assert ConvertSimple(Contact).required == ["name", "email"];
  }

  lemma ContactValid()
    ensures ValidateStep(ConvertSimple(Contact), Filled, Lenient).1
  {
    ContactRulesPass();
    ContactRequiredPresent();
    CleanDataValidates(ConvertSimple(Contact), Filled, Lenient);
  }

  lemma ContactDeclarations(c: SimpleFormSchema)
    requires c == Contact
    ensures Find(c.properties, "name") == Some(c.properties[0].1)
    ensures Find(c.properties, "email") == Some(c.properties[1].1)
  {
    ContactKeysDistinct(c);
    FindDistinct(c.properties, 0);
    FindDistinct(c.properties, 1);
  }

  lemma ContactFieldKeys(c: SimpleFormSchema, bag: Bag)
    requires c == Contact && bag == Filled
    ensures CollectSimple(c, bag).Keys == {"name", "email"}
  {
    assert c.properties[0].0 == "name" && c.properties[1].0 == "email";
    assert HasKey(c.properties, "name") && HasKey(c.properties, "email");
    assert bag.Keys == {"name", "email"};
    DeclaredDataCollected(c, bag);
  }

  lemma ContactEntries(c: SimpleFormSchema)
    requires c == Contact
    ensures SimpleEntry(c.required, "name", c.properties[0].1, Str("Ana"))
            == ResultField("name", Str("Ana"), "string", "Nome completo", true)
    ensures SimpleEntry(c.required, "email", c.properties[1].1, Str("ana@x.com"))
            == ResultField("email", Str("ana@x.com"), "string", "E-mail", true)
  {
    assert "name" in c.required && "email" in c.required;
  }

  lemma ContactFields(c: SimpleFormSchema, bag: Bag)
    requires c == Contact && bag == Filled
    ensures CollectSimple(c, bag)
            == map["name" := ResultField("name", Str("Ana"), "string", "Nome completo", true),
                   "email" := ResultField("email", Str("ana@x.com"), "string", "E-mail", true)]
  {
    ContactDeclarations(c);
    ContactFieldKeys(c, bag);
    ContactEntries(c);
    var fields := CollectSimple(c, bag);
    assert fields["name"] == SimpleEntry(c.required, "name", c.properties[0].1, bag["name"]);
    assert fields["email"] == SimpleEntry(c.required, "email", c.properties[1].1, bag["email"]);
    MapOfTwo(fields, "name", "email");
  }

  lemma MapOfTwo<V>(m: map<string, V>, a: string, b: string)
    requires m.Keys == {a, b}
    ensures m == map[a := m[a], b := m[b]]
  {
  }

  /** The contact form filled with a name and an e-mail: the submission succeeds
      and reports exactly those two fields, both required, with their titles;
      the untouched `subject` and `message` are left out of the result. */
  lemma ContactFormSubmission()
    ensures var r := HandleSubmit(ContactForm, State(0, Filled, false, map[]), Lenient, "2024-01-01T00:00:00.000Z");
            && r.1.Some?
            && r.1.value.formInfo == FormInfo(1, "Formulário de Contato", false, "2024-01-01T00:00:00.000Z")
            && r.1.value.fields
               == map["name" := ResultField("name", Str("Ana"), "string", "Nome completo", true),
                      "email" := ResultField("email", Str("ana@x.com"), "string", "E-mail", true)]
  {
    ContactValid();
    ContactFields(Contact, Filled);
    assert CurrentSchema(ContactForm, 0) == ConvertSimple(Contact);
  }
}
