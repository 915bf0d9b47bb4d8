/**
 `formData` is a plain object, and `formData[fieldName]` also finds the members
 every plain object inherits from `Object.prototype`. For a field named, say,
 "constructor" the read yields a function even when the user never set the field:
 the required pass then sees a truthy value and reports nothing, and the
 aggregation sees a value that is not `undefined` and emits it. The members here
 model those reads as written; the rest of the model reads own keys only
 (`Js.Read`), which is what the code evidently means.
 */
module Findings {
  import opened Js
  import opened Types
  import opened Validate
  import opened Aggregate

  /** The names a plain object inherits; each reads as a function or object. */
  const InheritedNames: set<string> :=
    {"constructor", "hasOwnProperty", "isPrototypeOf", "propertyIsEnumerable",
     "toLocaleString", "toString", "valueOf", "__proto__",
     "__defineGetter__", "__defineSetter__", "__lookupGetter__", "__lookupSetter__"}

  /** The form data as a property read sees it: own keys first, then the inherited members. */
  function AsSeenByPropertyRead(bag: Bag): (r: Bag)
    ensures forall k :: Read(r, k) == if k in bag then bag[k] else if k in InheritedNames then Obj else Undefined
  {
    (map n | n in InheritedNames :: Obj) + bag
  }

  /** The required pass as written (FormSchemaWizard.tsx line 105). */
  function RequiredPassAsWritten(required: seq<string>, bag: Bag): (r: map<string, Rule>)
    ensures forall k :: k in r <==> k in required && IsMissing(Read(AsSeenByPropertyRead(bag), k))
  {
    RequiredPass(required, AsSeenByPropertyRead(bag))
  }

  /** The simple-form aggregation as written (FormSchemaWizard.tsx line 266). */
  function CollectSimpleAsWritten(s: SimpleFormSchema, bag: Bag): (r: map<string, ResultField>)
    ensures forall k :: k in r <==> Entries.HasKey(s.properties, k) && Read(AsSeenByPropertyRead(bag), k) != Undefined
  {
    CollectSimple(s, AsSeenByPropertyRead(bag))
  }

  /** The multi-step aggregation as written (FormSchemaWizard.tsx line 249). */
  function CollectStepsAsWritten(steps: seq<FormStep>, bag: Bag): (r: map<string, ResultField>)
    ensures forall k :: k in r <==> LastDeclaration(steps, k).Some? && Read(AsSeenByPropertyRead(bag), k) != Undefined
  {
    CollectSteps(steps, AsSeenByPropertyRead(bag))
  }

  /** A required field named "constructor" that was never filled: as written no
      error is raised, while the own-key reading reports it. */
  lemma InheritedNameHidesMissingRequired()
    ensures RequiredPassAsWritten(["constructor"], map[]) == map[]
    ensures RequiredPass(["constructor"], map[]) == map["constructor" := Required]
  {
    assert Read(AsSeenByPropertyRead(map[]), "constructor") == Obj;
    var r := RequiredPass(["constructor"], map[]);
    assert "constructor" in r;
    assert r.Keys == {"constructor"};
  }

  /** A field named "toString" that was never filled: as written it is emitted,
      while the own-key reading leaves it out. */
  lemma InheritedNameEmitsUnsetField()
    ensures var s := SimpleFormSchema("f", "object", "F", [],
                                      [("toString", SimpleField("string", "T", Wrappers.None, Wrappers.None,
                                                                Wrappers.None, Wrappers.None, Wrappers.None))],
                                      Wrappers.None);
            "toString" in CollectSimpleAsWritten(s, map[]) && "toString" !in CollectSimple(s, map[])
  {
    var s := SimpleFormSchema("f", "object", "F", [],
                              [("toString", SimpleField("string", "T", Wrappers.None, Wrappers.None,
                                                        Wrappers.None, Wrappers.None, Wrappers.None))],
                              Wrappers.None);
    assert s.properties[0].0 == "toString";
    assert Read(AsSeenByPropertyRead(map[]), "toString") == Obj;
  }

  /** A step field named "valueOf" that was never filled: as written it is
      emitted with a function as its value, while the own-key reading leaves it out. */
  lemma InheritedNameEmitsUnsetStepField()
    ensures var steps := [FormStep("s", "S", StepSchema("object", [], [("valueOf", UnsetStepField)]))];
            && "valueOf" in CollectStepsAsWritten(steps, map[])
            && CollectStepsAsWritten(steps, map[])["valueOf"].value == Obj
            && "valueOf" !in CollectSteps(steps, map[])
  {
    var steps := [FormStep("s", "S", StepSchema("object", [], [("valueOf", UnsetStepField)]))];
    assert steps[0].schema.properties[0].0 == "valueOf";
    assert LastDeclaration(steps, "valueOf") == Wrappers.Some(UnsetStepField);
    assert Read(AsSeenByPropertyRead(map[]), "valueOf") == Obj;
  }

  const UnsetStepField := FormField("valueOf", "valueOf", "string", "V", false, Wrappers.None, Wrappers.None, Wrappers.None)

  /** The corrected reading: a required key the user never set is always reported,
      and a field the user never set is never emitted. */
  lemma UnsetFieldsHandled(required: seq<string>, form: FormJson, bag: Bag, now: string, k: string)
    requires k !in bag
    ensures k in required ==> k in RequiredPass(required, bag)
    ensures k !in Aggregate.Aggregate(form, bag, now).fields
  {
  }
}
