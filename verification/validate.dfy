/**
 `validateCurrentStep`: a required pass over the schema's `required` names, then a
 rule pass over every key of the cumulative form data. The result is an error map
 from field name to message; the step is valid exactly when the map is empty.
 */
module Validate {
  import opened Wrappers
  import opened Entries
  import opened Js
  import opened Types
  import opened Formats
  import Normalize

  /** The two calls into the JavaScript platform: `new RegExp(pattern).test(value)`,
      an unanchored search, and whether `new URL(value)` returns without throwing. */
  datatype Host = Host(regexTest: (string, string) -> bool, urlParses: string -> bool)

  /** The rule behind an error message; the length and number rules carry their bound. */
  datatype Rule =
    | Required
    | MinLength(bound: int)
    | MaxLength(bound: int)
    | Minimum(bound: int)
    | Maximum(bound: int)
    | Pattern
    | Enum
    | Email
    | Date
    | Url

  /** `!value || (typeof value === 'string' && value.trim() === '')`. */
  predicate IsMissing(v: Value)
  {
    !IsTruthy(v) || (v.Str? && Trim(v.s) == "")
  }

  /** `properties[k]?.title || k`: the declared title when it is non-empty,
      otherwise the key itself. */
  function Title(props: Entries<FieldSchema>, k: string): (r: string)
    ensures !HasKey(props, k) ==> r == k
    ensures r == k || exists i :: 0 <= i < |props| && props[i].0 == k && props[i].1.title == Some(r)
    ensures r == "" ==> k == ""
    ensures forall i :: 0 <= i < |props| && props[i].0 == k && (forall j :: i < j < |props| ==> props[j].0 != k) ==>
              r == if props[i].1.title.Some? && props[i].1.title.value != "" then props[i].1.title.value else k
  {
    FindLastEntry(props, k);
    match Find(props, k)
    case Some(f) => if f.title.Some? && f.title.value != "" then f.title.value else k
    case None => k
  }

  // ---- The seven rules, in the order the rule pass applies them ----

  predicate BreaksMinLength(f: FieldSchema, v: Value)
  {
    f.minLength.Some? && f.minLength.value != 0 && v.Str? && Utf16Length(v.s) < f.minLength.value
  }

  predicate BreaksMaxLength(f: FieldSchema, v: Value)
  {
    f.maxLength.Some? && f.maxLength.value != 0 && v.Str? && Utf16Length(v.s) > f.maxLength.value
  }

  predicate BreaksMinimum(f: FieldSchema, v: Value)
  {
    f.minimum.Some? && v.Num? && v.n < f.minimum.value
  }

  predicate BreaksMaximum(f: FieldSchema, v: Value)
  {
    f.maximum.Some? && v.Num? && v.n > f.maximum.value
  }

  predicate BreaksPattern(f: FieldSchema, v: Value, host: Host)
  {
    f.pattern.Some? && f.pattern.value != "" && v.Str? && !host.regexTest(f.pattern.value, v.s)
  }

  /** `!enum.includes(value)`: only a string can be one of the listed strings. */
  predicate BreaksEnum(f: FieldSchema, v: Value)
  {
    f.enumValues.Some? && !(v.Str? && v.s in f.enumValues.value)
  }

  /** The `switch (format)`: e-mail, date and uri/url are checked; any other
      format, "data-url" among them, is accepted. */
  function FormatRule(format: string, s: string, host: Host): Option<Rule>
  {
    if format == "email" then (if IsEmail(s) then None else Some(Email))
    else if format == "date" then (if IsDate(s) then None else Some(Date))
    else if format == "uri" || format == "url" then (if host.urlParses(s) then None else Some(Url))
    else None
  }

  /** Only "email", "date", "uri" and "url" are ever checked; "data-url" and any
      other format pass whatever the value. */
  lemma UncheckedFormatsPass(format: string, s: string, host: Host)
    requires format !in {"email", "date", "uri", "url"}
    ensures FormatRule(format, s, host) == None
  {
  }

  function FormatViolation(f: FieldSchema, v: Value, host: Host): Option<Rule>
  {
    if f.format.Some? && v.Str? then FormatRule(f.format.value, v.s, host) else None
  }

  /** Every rule the value breaks, in rule order. */
  function Violations(f: FieldSchema, v: Value, host: Host): seq<Rule>
  {
    (if BreaksMinLength(f, v) then [MinLength(f.minLength.value)] else [])
    + (if BreaksMaxLength(f, v) then [MaxLength(f.maxLength.value)] else [])
    + (if BreaksMinimum(f, v) then [Minimum(f.minimum.value)] else [])
    + (if BreaksMaximum(f, v) then [Maximum(f.maximum.value)] else [])
    + (if BreaksPattern(f, v, host) then [Pattern] else [])
    + (if BreaksEnum(f, v) then [Enum] else [])
    + (match FormatViolation(f, v, host) case Some(r) => [r] case None => [])
  }

  function Last<T>(s: seq<T>): T
    requires |s| > 0
  {
    s[|s| - 1]
  }

  /** The rule checks of one field as the source runs them: each broken rule
      overwrites the entry, so the entry that survives is the last broken rule,
      or the earlier entry (a "required" error, or none) if no rule is broken. */
  function ApplyRules(prev: Option<Rule>, f: FieldSchema, v: Value, host: Host): (r: Option<Rule>)
    ensures r == if Violations(f, v, host) == [] then prev else Some(Last(Violations(f, v, host)))
  {
    var e1 := if BreaksMinLength(f, v) then Some(MinLength(f.minLength.value)) else prev;
    var e2 := if BreaksMaxLength(f, v) then Some(MaxLength(f.maxLength.value)) else e1;
    var e3 := if BreaksMinimum(f, v) then Some(Minimum(f.minimum.value)) else e2;
    var e4 := if BreaksMaximum(f, v) then Some(Maximum(f.maximum.value)) else e3;
    var e5 := if BreaksPattern(f, v, host) then Some(Pattern) else e4;
    var e6 := if BreaksEnum(f, v) then Some(Enum) else e5;
    if FormatViolation(f, v, host).Some? then FormatViolation(f, v, host) else e6
  }

  // ---- The two passes ----

  /** The required pass over `required`, in order. */
  function RequiredPass(required: seq<string>, bag: Bag): (r: map<string, Rule>)
    ensures forall k :: k in r <==> k in required && IsMissing(Read(bag, k))
    ensures forall k :: k in r ==> r[k] == Required
  {
    if |required| == 0 then map[]
    else
      var r := RequiredPass(required[..|required| - 1], bag);
      var k := required[|required| - 1];
      assert required == required[..|required| - 1] + [k];
      if IsMissing(Read(bag, k)) then r[k := Required] else r
  }

  function Get(m: map<string, Rule>, k: string): Option<Rule>
  {
    if k in m then Some(m[k]) else None
  }

  /** One iteration of the rule pass: the rules run only for a truthy value of a
      key the schema declares. */
  function Overwrite(prev: Option<Rule>, props: Entries<FieldSchema>, bag: Bag, k: string, host: Host): Option<Rule>
  {
    var v := Read(bag, k);
    match Find(props, k)
    case Some(f) => if IsTruthy(v) then ApplyRules(prev, f, v, host) else prev
    case None => prev
  }

  /** The rule pass over the entries of the form data, on top of the required
      pass's entries. Each key only touches its own entry, so the order of the
      walk does not matter: a key that breaks a rule ends with the last rule it
      breaks, and every other key keeps the entry it had. */
  function RulePass(acc: map<string, Rule>, schema: ObjectSchema, bag: Bag, host: Host): (r: map<string, Rule>)
    ensures forall k :: Get(r, k) == if RuleViolations(schema, bag, k, host) != []
                                      then Some(Last(RuleViolations(schema, bag, k, host)))
                                      else Get(acc, k)
  {
    var props := schema.properties;
    var r := map k | k in acc.Keys + bag.Keys && Overwrite(Get(acc, k), props, bag, k, host).Some?
               :: Overwrite(Get(acc, k), props, bag, k, host).value;
    assert forall k :: k !in bag ==> Read(bag, k) == Undefined;
    r
  }

  // ---- What the passes compute, stated per key ----

  ghost predicate RequiredMissing(schema: ObjectSchema, bag: Bag, k: string)
  {
    k in schema.required && IsMissing(Read(bag, k))
  }

  /** The rules a key breaks, or none when the rule pass skips the key (its value
      is falsy or the schema does not declare it). */
  function RuleViolations(schema: ObjectSchema, bag: Bag, k: string, host: Host): seq<Rule>
  {
    var v := Read(bag, k);
    match Find(schema.properties, k)
    case Some(f) => if IsTruthy(v) then Violations(f, v, host) else []
    case None => []
  }

  /** The rule behind each error: a key has an error iff it is a missing required
      key or breaks a rule, and the error is the last rule it breaks, replacing a
      "required" error, or "required" when it breaks none. */
  function Issues(schema: ObjectSchema, bag: Bag, host: Host): (r: map<string, Rule>)
    ensures forall k :: k in r <==> RequiredMissing(schema, bag, k) || RuleViolations(schema, bag, k, host) != []
    ensures forall k :: k in r ==>
              r[k] == if RuleViolations(schema, bag, k, host) != [] then Last(RuleViolations(schema, bag, k, host))
                      else Required
  {
    var req := RequiredPass(schema.required, bag);
    var r := RulePass(req, schema, bag, host);
    assert forall k :: k in r <==> Get(r, k).Some?;
    r
  }

  /** What the message says after the field's title. */
  function Wording(rule: Rule): (r: string)
    ensures |r| > 1 && r[0] == ' '
  {
    match rule
    case Required => " é obrigatório"
    case MinLength(n) => " deve ter pelo menos " + NumberToString(n) + " caracteres"
    case MaxLength(n) => " deve ter no máximo " + NumberToString(n) + " caracteres"
    case Minimum(n) => " deve ser pelo menos " + NumberToString(n)
    case Maximum(n) => " deve ser no máximo " + NumberToString(n)
    case Pattern => " não está no formato correto"
    case Enum => " deve ser um dos valores permitidos"
    case Email => " deve ser um email válido"
    case Date => " deve ser uma data válida (YYYY-MM-DD)"
    case Url => " deve ser uma URL válida"
  }

  /** The message for a rule: the field's title, then the wording. */
  function Message(title: string, rule: Rule): (r: string)
    ensures |r| > |title| && r[..|title|] == title
    ensures r[|title|] == ' '
  {
    var w := Wording(rule);
    assert (title + w)[|title|] == w[0];
    title + w
  }

  /** The first characters of each wording, enough to tell the rules apart. */
  function Opening(rule: Rule): string
  {
    match rule
    case Required => " é obrigatório"
    case MinLength(_) => " deve ter pelo "
    case MaxLength(_) => " deve ter no má"
    case Minimum(_) => " deve ser pelo "
    case Maximum(_) => " deve ser no má"
    case Pattern => " não está no fo"
    case Enum => " deve ser um do"
    case Email => " deve ser um em"
    case Date => " deve ser uma d"
    case Url => " deve ser uma U"
  }

  lemma OpeningIsPrefix(rule: Rule)
    ensures |Opening(rule)| <= |Wording(rule)|
    ensures Wording(rule)[..|Opening(rule)|] == Opening(rule)
  {
  }

  lemma OpeningsDiffer(a: Rule, b: Rule)
    requires Opening(a) == Opening(b)
    ensures a.Required? == b.Required? && a.MinLength? == b.MinLength? && a.MaxLength? == b.MaxLength?
    ensures a.Minimum? == b.Minimum? && a.Maximum? == b.Maximum? && a.Pattern? == b.Pattern?
    ensures a.Enum? == b.Enum? && a.Email? == b.Email? && a.Date? == b.Date?
  {
  }

  /** Only the "required" opening is shorter, and it is no prefix of another. */
  lemma OpeningsNotNested(a: Rule, b: Rule)
    requires a.Required? && !b.Required?
    ensures |Opening(b)| == 15 && Opening(b)[..14] != Opening(a)
  {
    assert Opening(b)[1] != Opening(a)[1];
  }

  /** Equal wordings come from rules of the same kind. */
  lemma WordingSameKind(a: Rule, b: Rule)
    requires Wording(a) == Wording(b)
    ensures Opening(a) == Opening(b)
  {
    OpeningIsPrefix(a);
    OpeningIsPrefix(b);
    if a.Required? != b.Required? {
      var (r, o) := if a.Required? then (a, b) else (b, a);
      OpeningsNotNested(r, o);
    }
  }

  /** A number written between the same two texts is recovered from the result. */
  lemma FramedNumber(before: string, n: int, m: int, after: string)
    requires before + NumberToString(n) + after == before + NumberToString(m) + after
    ensures n == m
  {
    var w := before + NumberToString(n) + after;
    assert w[|before|..|w| - |after|] == NumberToString(n);
    assert w[|before|..|w| - |after|] == NumberToString(m);
    NumberToStringInjective(n, m);
  }

  /** Within a kind that carries a bound, the wording shows the bound. */
  lemma WordingShowsBound(a: Rule, b: Rule)
    requires a.MinLength? || a.MaxLength? || a.Minimum? || a.Maximum?
    requires Opening(a) == Opening(b) && Wording(a) == Wording(b)
    ensures a.bound == b.bound
  {
    match a
    case MinLength(n) => FramedNumber(" deve ter pelo menos ", n, b.bound, " caracteres");
    case MaxLength(n) => FramedNumber(" deve ter no máximo ", n, b.bound, " caracteres");
    case Minimum(n) =>
      assert Wording(a) == " deve ser pelo menos " + NumberToString(n) + "";
      FramedNumber(" deve ser pelo menos ", n, b.bound, "");
    case Maximum(n) =>
      assert Wording(a) == " deve ser no máximo " + NumberToString(n) + "";
      FramedNumber(" deve ser no máximo ", n, b.bound, "");
  }

  /** The wording tells the rules apart, bounds included. */
  lemma WordingIdentifiesRule(a: Rule, b: Rule)
    requires Wording(a) == Wording(b)
    ensures a == b
  {
    WordingSameKind(a, b);
    OpeningsDiffer(a, b);
    if a.MinLength? || a.MaxLength? || a.Minimum? || a.Maximum? {
      WordingShowsBound(a, b);
    }
  }

  /** Two errors on the same field read the same only when they come from the
      same rule with the same bound. */
  lemma MessageIdentifiesRule(title: string, a: Rule, b: Rule)
    requires Message(title, a) == Message(title, b)
    ensures a == b
  {
    assert Wording(a) == Message(title, a)[|title|..];
    assert Wording(b) == Message(title, b)[|title|..];
    WordingIdentifiesRule(a, b);
  }

  /** `validateCurrentStep`: the error map it publishes and the verdict it returns.
      The verdict is true iff the map is empty, iff no required key is missing and
      no key of the form data breaks a rule. */
  function ValidateStep(schema: ObjectSchema, bag: Bag, host: Host): (r: (map<string, string>, bool))
    ensures r.0.Keys == Issues(schema, bag, host).Keys
    ensures forall k :: k in r.0 ==> r.0[k] == Message(Title(schema.properties, k), Issues(schema, bag, host)[k])
    ensures r.1 <==> r.0 == map[]
    ensures r.1 <==> (forall k :: k in schema.required ==> !IsMissing(Read(bag, k)))
                     && (forall k :: k in bag ==> RuleViolations(schema, bag, k, host) == [])
  {
    var issues := Issues(schema, bag, host);
    var errors := map k | k in issues :: Message(Title(schema.properties, k), issues[k]);
    NoIssuesIffClean(schema, bag, host);
    assert errors == map[] <==> issues == map[] by {
      assert errors.Keys == issues.Keys;
    }
    (errors, errors == map[])
  }

  lemma NoIssuesIffClean(schema: ObjectSchema, bag: Bag, host: Host)
    ensures Issues(schema, bag, host) == map[] <==>
              (forall k :: k in schema.required ==> !IsMissing(Read(bag, k)))
              && (forall k :: k in bag ==> RuleViolations(schema, bag, k, host) == [])
  {
    var issues := Issues(schema, bag, host);
    if issues != map[] {
      var k :| k in issues;
      if !RequiredMissing(schema, bag, k) {
        assert RuleViolations(schema, bag, k, host) != [];
        assert k in bag;
      }
    } else {
      forall k | k in schema.required
        ensures !IsMissing(Read(bag, k))
      {
        assert k !in issues;
      }
      forall k | k in bag
        ensures RuleViolations(schema, bag, k, host) == []
      {
        assert k !in issues;
      }
    }
  }

  /** The success direction of the verdict, for callers that have checked every key. */
  lemma CleanDataValidates(schema: ObjectSchema, bag: Bag, host: Host)
    requires forall k :: k in schema.required ==> !IsMissing(Read(bag, k))
    requires forall k :: k in bag ==> RuleViolations(schema, bag, k, host) == []
    ensures ValidateStep(schema, bag, host).1
  {
  }

  /** A rule error needs a truthy value under a key the schema declares: keys the
      schema does not know, and falsy values, only ever get a "required" error. */
  lemma RuleErrorsNeedTruthyDeclaredValue(schema: ObjectSchema, bag: Bag, host: Host, k: string)
    requires k in Issues(schema, bag, host) && Issues(schema, bag, host)[k] != Required
    ensures k in bag && IsTruthy(bag[k]) && HasKey(schema.properties, k)
  {
  }

  /** For a schema either normaliser built, only the length rules and `enum` can
      fire: `minimum`, `maximum`, `pattern` are never emitted and "data-url" is
      not a checked format. */
  lemma NormalisedSchemaRules(schema: ObjectSchema, bag: Bag, host: Host, k: string)
    requires Normalize.OnlyLengthEnumOrFile(schema)
    ensures forall r :: r in RuleViolations(schema, bag, k, host) ==> r.MinLength? || r.MaxLength? || r.Enum?
  {
    var p := schema.properties;
    var v := Read(bag, k);
    if Find(p, k).Some? && IsTruthy(v) {
      var f := Find(p, k).value;
      var i :| 0 <= i < |p| && p[i] == (k, f);
      assert f == p[i].1;
      assert FormatViolation(f, v, host).None?;
    }
  }
}
