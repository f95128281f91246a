/**
 * The request-body validators (server/middleware/validation.js). Each Joi
 * schema is a list of rules, one per key, checked in the order the schema
 * declares them and followed by the check for undeclared keys; with Joi's
 * default `abortEarly` only the first problem is reported. `Conforms` states
 * declaratively what an accepted body looks like, and `FirstIssue` is proved
 * to accept exactly those bodies.
 *
 * Joi converts strings to dates and numbers; which strings are dates and which
 * number a numeric string denotes are parameters (`Conversions`).
 */
module Validation {
  import opened Wrappers
  import opened Text
  import opened Json

  datatype Conversions = Conversions(isDate: string -> bool, numeral: string -> Option<real>)

  /** The type of a key and its constraints. */
  datatype Kind =
    | Text(allowEmpty: bool, maxLen: Option<nat>, oneOf: seq<string>)  // `oneOf == []`: any string
    | When(allowNull: bool)                                           // `Joi.date()`
    | Number(integer: bool, min: Option<int>, max: Option<int>)
    | Flag                                                            // `Joi.boolean()`
    | TextList                                                        // `Joi.array().items(Joi.string())`

  datatype Rule = Rule(key: string, required: bool, kind: Kind)

  type Schema = seq<Rule>

  /** The first problem found, from which Joi's `details[0].message` is rendered. */
  datatype Issue =
    | NotObject
    | Required(key: string)
    | NotOneOf(key: string, options: seq<string>)
    | NotText(key: string)
    | EmptyText(key: string)
    | TooLong(key: string, maxLength: nat)
    | NotDate(key: string)
    | NotNumber(key: string)
    | NotInteger(key: string)
    | BelowMin(key: string, limit: int)
    | AboveMax(key: string, limit: int)
    | NotFlag(key: string)
    | NotList(key: string)
    | ItemNotText(key: string, index: nat)
    | ItemEmpty(key: string, index: nat)
    | NotAllowed(key: string)

  // ---------------------------------------------------------------- checking

  /** A number, or a string Joi converts to one. */
  function NumberOf(conv: Conversions, x: Json): Option<real>
  {
    match x
    case JNum(n) => Some(n)
    case JStr(s) => conv.numeral(s)
    case _ => None
  }

  predicate IsInteger(n: real)
  {
    n.Floor as real == n
  }

  predicate IsFlag(x: Json)
  {
    x.JBool? || x == JStr("true") || x == JStr("false")
  }

  /** The first array item, from position `from` on, that is not a non-empty string. */
  function CheckItems(key: string, items: seq<Json>, from: nat): (r: Option<Issue>)
    requires from <= |items|
    ensures r.Some? ==> (r.value.ItemNotText? || r.value.ItemEmpty?) && r.value.key == key
    decreases |items| - from
  {
    if from == |items| then None
    else if !items[from].JStr? then Some(ItemNotText(key, from))
    else if items[from].s == "" then Some(ItemEmpty(key, from))
    else CheckItems(key, items, from + 1)
  }

  /**
   * One present value against its kind, in Joi's order: the allowed values
   * first (`valid`, `allow`), then the type, then emptiness, then the rules
   * in the order the schema chains them.
   */
  function CheckKind(conv: Conversions, key: string, kind: Kind, x: Json): (r: Option<Issue>)
    ensures r.Some? ==> !r.value.NotObject? && r.value.key == key
  {
    match kind
    case Text(allowEmpty, maxLen, oneOf) =>
      if oneOf != [] then
        if x.JStr? && x.s in oneOf then None else Some(NotOneOf(key, oneOf))
      else if allowEmpty && x == JStr("") then None
      else if !x.JStr? then Some(NotText(key))
      else if x.s == "" then Some(EmptyText(key))
      else if maxLen.Some? && |x.s| > maxLen.value then Some(TooLong(key, maxLen.value))
      else None
    case When(allowNull) =>
      if allowNull && x.JNull? then None
      else if x.JNum? || (x.JStr? && conv.isDate(x.s)) then None
      else Some(NotDate(key))
    case Number(integer, min, max) =>
      var n := NumberOf(conv, x);
      if n.None? then Some(NotNumber(key))
      else if integer && !IsInteger(n.value) then Some(NotInteger(key))
      else if min.Some? && n.value < min.value as real then Some(BelowMin(key, min.value))
      else if max.Some? && n.value > max.value as real then Some(AboveMax(key, max.value))
      else None
    case Flag =>
      if IsFlag(x) then None else Some(NotFlag(key))
    case TextList =>
      if !x.JArr? then Some(NotList(key)) else CheckItems(key, x.items, 0)
  }

  function CheckRule(conv: Conversions, rule: Rule, fields: seq<(string, Json)>): Option<Issue>
  {
    match Get(fields, rule.key)
    case None => if rule.required then Some(Required(rule.key)) else None
    case Some(x) => CheckKind(conv, rule.key, rule.kind, x)
  }

  /** The declared keys in schema order; the first failing one is reported. */
  function CheckRules(conv: Conversions, schema: Schema, fields: seq<(string, Json)>): Option<Issue>
    decreases |schema|
  {
    if schema == [] then None
    else
      var first := CheckRule(conv, schema[0], fields);
      if first.Some? then first else CheckRules(conv, schema[1..], fields)
  }

  predicate Declared(schema: Schema, key: string)
  {
    exists i :: 0 <= i < |schema| && schema[i].key == key
  }

  /** The first member of the body whose key the schema does not declare. */
  function Undeclared(schema: Schema, fields: seq<(string, Json)>): (r: Option<string>)
    ensures r.Some? ==> !Declared(schema, r.value)
    decreases |fields|
  {
    if fields == [] then None
    else if !Declared(schema, fields[0].0) then Some(fields[0].0)
    else Undeclared(schema, fields[1..])
  }

  /** `schema.validate(body).error.details[0]`, or `None` when there is no error. */
  function FirstIssue(conv: Conversions, schema: Schema, body: Json): Option<Issue>
  {
    if !body.JObj? then Some(NotObject)
    else
      var declared := CheckRules(conv, schema, body.fields);
      if declared.Some? then declared
      else
        var extra := Undeclared(schema, body.fields);
        if extra.Some? then Some(NotAllowed(extra.value)) else None
  }

  // ----------------------------------------------------- what passes, stated

  predicate Admits(conv: Conversions, kind: Kind, x: Json)
  {
    match kind
    case Text(allowEmpty, maxLen, oneOf) =>
      x.JStr? &&
      (oneOf != [] ==> x.s in oneOf) &&
      (oneOf == [] ==> (x.s == "" ==> allowEmpty) && (x.s != "" && maxLen.Some? ==> |x.s| <= maxLen.value))
    case When(allowNull) =>
      (allowNull && x.JNull?) || x.JNum? || (x.JStr? && conv.isDate(x.s))
    case Number(integer, min, max) =>
      var n := NumberOf(conv, x);
      n.Some? && (integer ==> IsInteger(n.value)) &&
      (min.Some? ==> n.value >= min.value as real) && (max.Some? ==> n.value <= max.value as real)
    case Flag =>
      IsFlag(x)
    case TextList =>
      x.JArr? && forall i :: 0 <= i < |x.items| ==> x.items[i].JStr? && x.items[i].s != ""
  }

  predicate Satisfies(conv: Conversions, rule: Rule, fields: seq<(string, Json)>)
  {
    match Get(fields, rule.key)
    case None => !rule.required
    case Some(x) => Admits(conv, rule.kind, x)
  }

  /** An accepted body: an object, every declared key as its rule demands, no other key. */
  predicate Conforms(conv: Conversions, schema: Schema, body: Json)
  {
    body.JObj? &&
    (forall i :: 0 <= i < |schema| ==> Satisfies(conv, schema[i], body.fields)) &&
    (forall j :: 0 <= j < |body.fields| ==> Declared(schema, body.fields[j].0))
  }

  // ------------------------------------------------------------------ proofs

  lemma {:induction false} CheckItemsExact(key: string, items: seq<Json>, from: nat)
    requires from <= |items|
    ensures CheckItems(key, items, from) == None <==>
            forall i :: from <= i < |items| ==> items[i].JStr? && items[i].s != ""
    decreases |items| - from
  {
    if from < |items| {
      CheckItemsExact(key, items, from + 1);
    }
  }

  lemma CheckKindExact(conv: Conversions, key: string, kind: Kind, x: Json)
    ensures CheckKind(conv, key, kind, x) == None <==> Admits(conv, kind, x)
  {
    if kind.TextList? && x.JArr? {
      CheckItemsExact(key, x.items, 0);
    }
  }

  lemma CheckRuleExact(conv: Conversions, rule: Rule, fields: seq<(string, Json)>)
    ensures CheckRule(conv, rule, fields) == None <==> Satisfies(conv, rule, fields)
  {
    var v := Get(fields, rule.key);
    if v.Some? {
      CheckKindExact(conv, rule.key, rule.kind, v.value);
    }
  }

  lemma {:induction false} CheckRulesExact(conv: Conversions, schema: Schema, fields: seq<(string, Json)>)
    ensures CheckRules(conv, schema, fields) == None <==>
            forall i :: 0 <= i < |schema| ==> Satisfies(conv, schema[i], fields)
    decreases |schema|
  {
    if schema != [] {
      CheckRuleExact(conv, schema[0], fields);
      CheckRulesExact(conv, schema[1..], fields);
      assert forall i :: 1 <= i < |schema| ==> schema[i] == schema[1..][i - 1];
    }
  }

  lemma {:induction false} UndeclaredExact(schema: Schema, fields: seq<(string, Json)>)
    ensures Undeclared(schema, fields) == None <==> forall j :: 0 <= j < |fields| ==> Declared(schema, fields[j].0)
    decreases |fields|
  {
    if fields != [] {
      UndeclaredExact(schema, fields[1..]);
      assert forall j :: 1 <= j < |fields| ==> fields[j] == fields[1..][j - 1];
    }
  }

  /** Joi reports no error exactly for the bodies that conform to the schema. */
  lemma FirstIssueExact(conv: Conversions, schema: Schema, body: Json)
    ensures FirstIssue(conv, schema, body) == None <==> Conforms(conv, schema, body)
  {
    if body.JObj? {
      CheckRulesExact(conv, schema, body.fields);
      UndeclaredExact(schema, body.fields);
    }
  }

  /**
   * The reported problem is the one of the first declared key that fails:
   * every earlier key is fine, and later keys and undeclared keys are not looked at.
   */
  lemma {:induction false} FirstIssueIsFirst(conv: Conversions, schema: Schema, fields: seq<(string, Json)>, p: nat)
    requires p < |schema|
    requires forall q :: 0 <= q < p ==> Satisfies(conv, schema[q], fields)
    requires !Satisfies(conv, schema[p], fields)
    ensures CheckRule(conv, schema[p], fields).Some?
    ensures FirstIssue(conv, schema, JObj(fields)) == CheckRule(conv, schema[p], fields)
    decreases p
  {
    CheckRuleExact(conv, schema[p], fields);
    if p == 0 {
    } else {
      CheckRuleExact(conv, schema[0], fields);
      forall q | 0 <= q < p - 1 ensures Satisfies(conv, schema[1..][q], fields) {
        assert schema[1..][q] == schema[q + 1];
      }
      assert schema[1..][p - 1] == schema[p];
      FirstIssueIsFirst(conv, schema[1..], fields, p - 1);
    }
  }

  // ---------------------------------------------------------------- messages

  function JoinWith(parts: seq<string>, sep: string): string
    decreases |parts|
  {
    if parts == [] then ""
    else if |parts| == 1 then parts[0]
    else parts[0] + sep + JoinWith(parts[1..], sep)
  }

  function Label(key: string): string
  {
    "\"" + key + "\""
  }

  /** Who the message is about: the quoted key, or the quoted item path `key[i]`. */
  function Subject(issue: Issue): (r: string)
    ensures !issue.NotObject? ==> StartsWith(r, "\"" + issue.key)
  {
    match issue
    case NotObject => Label("value")
    case ItemNotText(k, i) =>
      StartsWithAppend("\"" + k, "[" + NatToDecimal(i) + "]\"");
      Label(k + "[" + NatToDecimal(i) + "]")
    case ItemEmpty(k, i) =>
      StartsWithAppend("\"" + k, "[" + NatToDecimal(i) + "]\"");
      Label(k + "[" + NatToDecimal(i) + "]")
    case _ =>
      StartsWithAppend("\"" + issue.key, "\"");
      Label(issue.key)
  }

  /** Joi's message for an issue; each names the offending key, quoted, at its start. */
  function Message(issue: Issue): (m: string)
    ensures !issue.NotObject? ==> StartsWith(m, "\"" + issue.key)
  {
    var rest := match issue
      case NotObject => " must be of type object"
      case Required(_) => " is required"
      case NotOneOf(_, opts) => " must be one of [" + JoinWith(opts, ", ") + "]"
      case NotText(_) => " must be a string"
      case EmptyText(_) => " is not allowed to be empty"
      case TooLong(_, n) => " length must be less than or equal to " + NatToDecimal(n) + " characters long"
      case NotDate(_) => " must be a valid date"
      case NotNumber(_) => " must be a number"
      case NotInteger(_) => " must be an integer"
      case BelowMin(_, n) => " must be greater than or equal to " + IntToDecimal(n)
      case AboveMax(_, n) => " must be less than or equal to " + IntToDecimal(n)
      case NotFlag(_) => " must be a boolean"
      case NotList(_) => " must be an array"
      case ItemNotText(_, _) => " must be a string"
      case ItemEmpty(_, _) => " is not allowed to be empty"
      case NotAllowed(_) => " is not allowed";
    StartsWithLonger(Subject(issue), rest, if issue.NotObject? then "" else "\"" + issue.key);
    Subject(issue) + rest
  }

  lemma StartsWithAppend(p: string, rest: string)
    ensures StartsWith(p + rest, p)
  {
    assert (p + rest)[..|p|] == p;
  }

  lemma StartsWithLonger(s: string, rest: string, p: string)
    requires StartsWith(s, p)
    ensures StartsWith(s + rest, p)
  {
    assert (s + rest)[..|p|] == s[..|p|];
  }

  // -------------------------------------------------------------- middleware

  /** What a validator does: answer the request, or hand it on with `next()`. */
  datatype Outcome = Respond(status: nat, error: string, details: string) | Next

  /** A `validate*` middleware: 400 with its fixed message and the first detail, or `next()`. */
  function Validate(conv: Conversions, schema: Schema, error: string, body: Json): (o: Outcome)
    ensures o == Next <==> Conforms(conv, schema, body)
    ensures o.Respond? ==> o.status == 400 && o.error == error
    ensures o.Respond? ==> FirstIssue(conv, schema, body).Some?
    ensures o.Respond? ==> o.details == Message(FirstIssue(conv, schema, body).value)
  {
    FirstIssueExact(conv, schema, body);
    match FirstIssue(conv, schema, body)
    case Some(issue) => Respond(400, error, Message(issue))
    case None => Next
  }

  // ----------------------------------------------------------------- schemas

  const MemoryCategories := ["Hitos", "Fotos", "Videos", "Médico", "Emocional", "Síntomas"]
  const MemoryMoods := ["Feliz", "Neutral", "Triste", "Emocionado", "Ansioso"]
  const JournalMoods := MemoryMoods + ["Cansado"]
  const TaskCategories := ["General", "Compras", "Preparativos", "Médico", "Decisiones", "Educación"]
  const TaskPriorities := ["Baja", "Media", "Alta"]
  const AppointmentTypes := ["Médico", "Ecografía", "Análisis", "Control", "Emergencia"]
  const MedicalTypes := ["Peso", "Presión arterial", "Glucosa", "Hemoglobina", "Ecografía", "Otro"]

  const AnyText := Text(false, None, [])
  const TextOrEmpty := Text(true, None, [])

  const MemorySchema: Schema := [
    Rule("title", true, Text(false, Some(200), [])),
    Rule("text", true, Text(false, Some(2000), [])),
    Rule("date", true, When(false)),
    Rule("category", true, Text(false, None, MemoryCategories)),
    Rule("mood", false, Text(false, None, MemoryMoods)),
    Rule("location", false, TextOrEmpty),
    Rule("tags", false, TextList),
    Rule("isFavorite", false, Flag),
    Rule("weather", false, TextOrEmpty)
  ]

  const JournalSchema: Schema := [
    Rule("title", true, Text(false, Some(200), [])),
    Rule("text", true, Text(false, Some(5000), [])),
    Rule("date", true, When(false)),
    Rule("mood", false, Text(false, None, JournalMoods)),
    Rule("energy", false, Number(true, Some(1), Some(10))),
    Rule("symptoms", false, TextList),
    Rule("gratitude", false, TextOrEmpty),
    Rule("tags", false, TextList),
    Rule("isPrivate", false, Flag)
  ]

  const TaskSchema: Schema := [
    Rule("text", true, Text(false, Some(500), [])),
    Rule("category", false, Text(false, None, TaskCategories)),
    Rule("dueDate", false, When(true)),
    Rule("priority", false, Text(false, None, TaskPriorities)),
    Rule("notes", false, TextOrEmpty),
    Rule("estimatedCost", false, Number(false, Some(0), None))
  ]

  const AppointmentSchema: Schema := [
    Rule("title", true, Text(false, Some(200), [])),
    Rule("date", true, When(false)),
    Rule("doctor", false, TextOrEmpty),
    Rule("location", false, TextOrEmpty),
    Rule("type", false, Text(false, None, AppointmentTypes)),
    Rule("notes", false, TextOrEmpty),
    Rule("reminder", false, Flag)
  ]

  const MedicalRecordSchema: Schema := [
    Rule("date", true, When(false)),
    Rule("type", true, Text(false, None, MedicalTypes)),
    Rule("value", true, AnyText),
    Rule("unit", false, TextOrEmpty),
    Rule("notes", false, TextOrEmpty),
    Rule("week", false, Number(true, Some(1), Some(42))),
    Rule("isNormal", false, Flag)
  ]

  function ValidateMemory(conv: Conversions, body: Json): (o: Outcome)
    ensures o == Next <==> Conforms(conv, MemorySchema, body)
    ensures o.Respond? ==> o.status == 400 && o.error == "Datos de memoria inválidos"
  {
    Validate(conv, MemorySchema, "Datos de memoria inválidos", body)
  }

  function ValidateJournal(conv: Conversions, body: Json): (o: Outcome)
    ensures o == Next <==> Conforms(conv, JournalSchema, body)
    ensures o.Respond? ==> o.status == 400 && o.error == "Datos de entrada de diario inválidos"
  {
    Validate(conv, JournalSchema, "Datos de entrada de diario inválidos", body)
  }

  function ValidateTask(conv: Conversions, body: Json): (o: Outcome)
    ensures o == Next <==> Conforms(conv, TaskSchema, body)
    ensures o.Respond? ==> o.status == 400 && o.error == "Datos de tarea inválidos"
  {
    Validate(conv, TaskSchema, "Datos de tarea inválidos", body)
  }

  function ValidateAppointment(conv: Conversions, body: Json): (o: Outcome)
    ensures o == Next <==> Conforms(conv, AppointmentSchema, body)
    ensures o.Respond? ==> o.status == 400 && o.error == "Datos de cita inválidos"
  {
    Validate(conv, AppointmentSchema, "Datos de cita inválidos", body)
  }

  function ValidateMedicalRecord(conv: Conversions, body: Json): (o: Outcome)
    ensures o == Next <==> Conforms(conv, MedicalRecordSchema, body)
    ensures o.Respond? ==> o.status == 400 && o.error == "Datos de registro médico inválidos"
  {
    Validate(conv, MedicalRecordSchema, "Datos de registro médico inválidos", body)
  }

  // ------------------------------------------------- what each schema demands

  /** A required text key of an accepted body is a non-empty string of at most `n` characters. */
  predicate RequiredText(fields: seq<(string, Json)>, key: string, n: nat)
  {
    var v := Get(fields, key);
    v.Some? && v.value.JStr? && 1 <= |v.value.s| <= n
  }

  /** An optional key of an accepted body is absent or one of the listed strings. */
  predicate OptionalChoice(fields: seq<(string, Json)>, key: string, options: seq<string>)
  {
    var v := Get(fields, key);
    v.None? || (v.value.JStr? && v.value.s in options)
  }

  /** An optional key of an accepted body is absent or an integer in `lo..hi`. */
  predicate OptionalIntegerIn(conv: Conversions, fields: seq<(string, Json)>, key: string, lo: int, hi: int)
  {
    var v := Get(fields, key);
    v.None? ||
    (var n := NumberOf(conv, v.value); n.Some? && IsInteger(n.value) && lo as real <= n.value <= hi as real)
  }

  lemma RequiredTextRule(conv: Conversions, rule: Rule, fields: seq<(string, Json)>, n: nat)
    requires Satisfies(conv, rule, fields) && rule.required && rule.kind == Text(false, Some(n), [])
    ensures RequiredText(fields, rule.key, n)
  {
  }

  lemma ChoiceRule(conv: Conversions, rule: Rule, fields: seq<(string, Json)>, options: seq<string>)
    requires Satisfies(conv, rule, fields) && rule.kind == Text(false, None, options) && options != []
    ensures OptionalChoice(fields, rule.key, options)
  {
  }

  lemma IntegerRule(conv: Conversions, rule: Rule, fields: seq<(string, Json)>, lo: int, hi: int)
    requires Satisfies(conv, rule, fields) && rule.kind == Number(true, Some(lo), Some(hi))
    ensures OptionalIntegerIn(conv, fields, rule.key, lo, hi)
  {
  }

  lemma RequiredChoiceRule(conv: Conversions, rule: Rule, fields: seq<(string, Json)>, options: seq<string>)
    requires Satisfies(conv, rule, fields) && rule.required && rule.kind == Text(false, None, options) && options != []
    ensures var c := Get(fields, rule.key); c.Some? && c.value.JStr? && c.value.s in options
  {
  }

  lemma RequiredNonEmptyRule(conv: Conversions, rule: Rule, fields: seq<(string, Json)>)
    requires Satisfies(conv, rule, fields) && rule.required && rule.kind == AnyText
    ensures var v := Get(fields, rule.key); v.Some? && v.value.JStr? && v.value.s != ""
  {
  }

  lemma RequiredDateRule(conv: Conversions, rule: Rule, fields: seq<(string, Json)>)
    requires Satisfies(conv, rule, fields) && rule.required && rule.kind == When(false)
    ensures var d := Get(fields, rule.key); d.Some? && !d.value.JNull?
  {
  }

  lemma LowerBoundRule(conv: Conversions, rule: Rule, fields: seq<(string, Json)>, lo: int)
    requires Satisfies(conv, rule, fields) && rule.kind == Number(false, Some(lo), None)
    ensures var c := Get(fields, rule.key);
            c.None? || (NumberOf(conv, c.value).Some? && NumberOf(conv, c.value).value >= lo as real)
  {
  }

  lemma MemoryDemands(conv: Conversions, body: Json)
    requires ValidateMemory(conv, body) == Next
    ensures body.JObj?
    ensures RequiredText(body.fields, "title", 200) && RequiredText(body.fields, "text", 2000)
    ensures Get(body.fields, "date").Some? && !Get(body.fields, "date").value.JNull?
    ensures var c := Get(body.fields, "category"); c.Some? && c.value.JStr? && c.value.s in MemoryCategories
    ensures OptionalChoice(body.fields, "mood", MemoryMoods)
  {
    var f := body.fields;
    assert Conforms(conv, MemorySchema, body);
    RequiredTextRule(conv, MemorySchema[0], f, 200);
    RequiredTextRule(conv, MemorySchema[1], f, 2000);
    RequiredDateRule(conv, MemorySchema[2], f);
    RequiredChoiceRule(conv, MemorySchema[3], f, MemoryCategories);
    ChoiceRule(conv, MemorySchema[4], f, MemoryMoods);
  }

  lemma JournalDemands(conv: Conversions, body: Json)
    requires ValidateJournal(conv, body) == Next
    ensures body.JObj?
    ensures RequiredText(body.fields, "title", 200) && RequiredText(body.fields, "text", 5000)
    ensures OptionalChoice(body.fields, "mood", JournalMoods)
    ensures OptionalIntegerIn(conv, body.fields, "energy", 1, 10)
  {
    var f := body.fields;
    assert Conforms(conv, JournalSchema, body);
    RequiredTextRule(conv, JournalSchema[0], f, 200);
    RequiredTextRule(conv, JournalSchema[1], f, 5000);
    ChoiceRule(conv, JournalSchema[3], f, JournalMoods);
    IntegerRule(conv, JournalSchema[4], f, 1, 10);
  }

  lemma TaskDemands(conv: Conversions, body: Json)
    requires ValidateTask(conv, body) == Next
    ensures body.JObj?
    ensures RequiredText(body.fields, "text", 500)
    ensures OptionalChoice(body.fields, "priority", TaskPriorities)
    ensures var c := Get(body.fields, "estimatedCost");
            c.None? || (NumberOf(conv, c.value).Some? && NumberOf(conv, c.value).value >= 0.0)
  {
    var f := body.fields;
    assert Conforms(conv, TaskSchema, body);
    RequiredTextRule(conv, TaskSchema[0], f, 500);
    ChoiceRule(conv, TaskSchema[3], f, TaskPriorities);
    LowerBoundRule(conv, TaskSchema[5], f, 0);
  }

  /** A task with a null due date passes, as long as the rest is right. */
  lemma TaskNullDueDate(conv: Conversions, text: string)
    requires 1 <= |text| <= 500
    ensures ValidateTask(conv, JObj([("text", JStr(text)), ("dueDate", JNull)])) == Next
  {
    var f := [("text", JStr(text)), ("dueDate", JNull)];
    forall i | 0 <= i < |TaskSchema| ensures Satisfies(conv, TaskSchema[i], f) {
    }
    forall j | 0 <= j < |f| ensures Declared(TaskSchema, f[j].0) {
      if j == 0 { assert TaskSchema[0].key == "text"; } else { assert TaskSchema[2].key == "dueDate"; }
    }
  }

  lemma AppointmentDemands(conv: Conversions, body: Json)
    requires ValidateAppointment(conv, body) == Next
    ensures body.JObj?
    ensures RequiredText(body.fields, "title", 200)
    ensures OptionalChoice(body.fields, "type", AppointmentTypes)
  {
    var f := body.fields;
    assert Conforms(conv, AppointmentSchema, body);
    RequiredTextRule(conv, AppointmentSchema[0], f, 200);
    ChoiceRule(conv, AppointmentSchema[4], f, AppointmentTypes);
  }

  lemma MedicalRecordDemands(conv: Conversions, body: Json)
    requires ValidateMedicalRecord(conv, body) == Next
    ensures body.JObj?
    ensures var t := Get(body.fields, "type"); t.Some? && t.value.JStr? && t.value.s in MedicalTypes
    ensures var v := Get(body.fields, "value"); v.Some? && v.value.JStr? && v.value.s != ""
    ensures OptionalIntegerIn(conv, body.fields, "week", 1, 42)
  {
    var f := body.fields;
    assert Conforms(conv, MedicalRecordSchema, body);
    RequiredChoiceRule(conv, MedicalRecordSchema[1], f, MedicalTypes);
    RequiredNonEmptyRule(conv, MedicalRecordSchema[2], f);
    IntegerRule(conv, MedicalRecordSchema[5], f, 1, 42);
  }

  /** Any member the schema does not declare is refused, naming that member. */
  lemma UndeclaredKeyRefused(conv: Conversions, schema: Schema, fields: seq<(string, Json)>, j: nat)
    requires j < |fields| && !Declared(schema, fields[j].0)
    ensures FirstIssue(conv, schema, JObj(fields)).Some?
  {
    FirstIssueExact(conv, schema, JObj(fields));
  }
}
