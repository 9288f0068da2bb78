/**
 * The request-body schemas of the calendar routes (api/validation/calendar.js).
 *
 * A schema is modelled the way the validation library reads it: a map from
 * field name to a rule (required or optional, whether the empty string is
 * allowed, and the string checks to run). `Accepts` interprets a schema
 * against a JSON body under the library's defaults: unknown keys are
 * rejected, a present field must be a string, and the empty string fails
 * unless it is explicitly allowed, in which case it skips the other checks.
 */
module RequestValidation {
  import opened Wrappers
  import opened ClientConsts

  /** A value of the JSON body: a string, or anything else (number, null, object ...). */
  datatype Value = Str(s: string) | NonString

  type Body = map<string, Value>

  datatype Check = MinLength(n: nat) | MaxLength(n: nat) | ColorPattern | EmailFormat

  datatype Rule = Rule(required: bool, allowEmpty: bool, checks: seq<Check>)

  type Schema = map<string, Rule>

  function Lookup(body: Body, key: string): Option<Value> {
    if key in body then Some(body[key]) else None
  }

  /**
   * A string's `length` as the validation library reads it: JavaScript counts
   * UTF-16 code units, so a character outside the Basic Multilingual Plane
   * (an emoji, say) counts twice.
   */
  function Utf16Length(s: string): (n: nat)
    ensures |s| <= n <= 2 * |s|
    ensures n == |s| <==> forall i | 0 <= i < |s| :: s[i] as int < 0x1_0000
  {
    if s == [] then 0
    else
      var rest := Utf16Length(s[1..]);
      assert forall i | 1 <= i < |s| :: s[i] == s[1..][i - 1];
      (if s[0] as int < 0x1_0000 then 1 else 2) + rest
  }

  /** `isEmail` stands for the library's e-mail address recogniser, which is not part of this model. */
  predicate Holds(c: Check, s: string, isEmail: string -> bool) {
    match c
    case MinLength(n) => n <= Utf16Length(s)
    case MaxLength(n) => Utf16Length(s) <= n
    case ColorPattern => MatchesColorPattern(s)
    case EmailFormat => isEmail(s)
  }

  predicate RuleAccepts(rule: Rule, v: Option<Value>, isEmail: string -> bool) {
    match v
    case None => !rule.required
    case Some(NonString) => false
    case Some(Str(s)) =>
      if s == "" then rule.allowEmpty
      else forall i | 0 <= i < |rule.checks| :: Holds(rule.checks[i], s, isEmail)
  }

  predicate Accepts(schema: Schema, body: Body, isEmail: string -> bool) {
    && body.Keys <= schema.Keys
    && forall key | key in schema :: RuleAccepts(schema[key], Lookup(body, key), isEmail)
  }

  /** createSchema: name required, description optional (may be ''), color optional. */
  function CreateSchema(name: Bounds, description: Bounds): Schema {
    map[
      "name" := Rule(true, false, [MinLength(name.min), MaxLength(name.max)]),
      "description" := Rule(false, true, [MinLength(description.min), MaxLength(description.max)]),
      "color" := Rule(false, false, [ColorPattern])
    ]
  }

  /** updateSchema: as createSchema, except that color is required. */
  function UpdateSchema(name: Bounds, description: Bounds): Schema {
    CreateSchema(name, description)["color" := Rule(true, false, [ColorPattern])]
  }

  /** shareSchema: a required e-mail address. */
  const ShareSchema: Schema := map["email" := Rule(true, false, [EmailFormat])]

  // ---------------------------------------------------------------------------
  // The schemas restated field by field, independently of the interpreter.
  // ---------------------------------------------------------------------------

  predicate NameOk(body: Body, name: Bounds) {
    "name" in body && body["name"].Str? && body["name"].s != "" && name.Contains(Utf16Length(body["name"].s))
  }

  predicate DescriptionOk(body: Body, description: Bounds) {
    "description" in body ==>
      body["description"].Str? &&
      (body["description"].s == "" || description.Contains(Utf16Length(body["description"].s)))
  }

  predicate ColorOk(body: Body, required: bool) {
    (required ==> "color" in body) &&
    ("color" in body ==> body["color"].Str? && MatchesColorPattern(body["color"].s))
  }

  lemma RuleAcceptsBounded(b: Bounds, allowEmpty: bool, required: bool, v: Option<Value>, isEmail: string -> bool)
    ensures RuleAccepts(Rule(required, allowEmpty, [MinLength(b.min), MaxLength(b.max)]), v, isEmail) <==>
      match v
      case None => !required
      case Some(NonString) => false
      case Some(Str(s)) => if s == "" then allowEmpty else b.Contains(Utf16Length(s))
  {
    var checks := [MinLength(b.min), MaxLength(b.max)];
    if v.Some? && v.value.Str? && v.value.s != "" {
      var s := v.value.s;
      if b.Contains(Utf16Length(s)) {
        forall i | 0 <= i < |checks| ensures Holds(checks[i], s, isEmail) { }
      } else {
        assert !Holds(checks[0], s, isEmail) || !Holds(checks[1], s, isEmail);
      }
    }
  }

  lemma RuleAcceptsColor(required: bool, v: Option<Value>, isEmail: string -> bool)
    ensures RuleAccepts(Rule(required, false, [ColorPattern]), v, isEmail) <==>
      match v
      case None => !required
      case Some(NonString) => false
      case Some(Str(s)) => MatchesColorPattern(s)
  {
    if v.Some? && v.value.Str? && v.value.s != "" {
      var s := v.value.s;
      assert [ColorPattern][0] == ColorPattern;
    }
  }

  /** createSchema accepts exactly the bodies with the three field conditions and no other key. */
  lemma CreateSchemaMeaning(body: Body, name: Bounds, description: Bounds, isEmail: string -> bool)
    ensures Accepts(CreateSchema(name, description), body, isEmail) <==>
      && body.Keys <= {"name", "description", "color"}
      && NameOk(body, name)
      && DescriptionOk(body, description)
      && ColorOk(body, false)
  {
    var schema := CreateSchema(name, description);
    assert schema.Keys == {"name", "description", "color"};
    RuleAcceptsBounded(name, false, true, Lookup(body, "name"), isEmail);
    RuleAcceptsBounded(description, true, false, Lookup(body, "description"), isEmail);
    RuleAcceptsColor(false, Lookup(body, "color"), isEmail);
  }

  /** updateSchema differs from createSchema only in that the colour must be present. */
  lemma UpdateSchemaMeaning(body: Body, name: Bounds, description: Bounds, isEmail: string -> bool)
    ensures Accepts(UpdateSchema(name, description), body, isEmail) <==>
      && body.Keys <= {"name", "description", "color"}
      && NameOk(body, name)
      && DescriptionOk(body, description)
      && ColorOk(body, true)
  {
    var schema := UpdateSchema(name, description);
    assert schema.Keys == {"name", "description", "color"};
    RuleAcceptsBounded(name, false, true, Lookup(body, "name"), isEmail);
    RuleAcceptsBounded(description, true, false, Lookup(body, "description"), isEmail);
    RuleAcceptsColor(true, Lookup(body, "color"), isEmail);
  }

  /** Every body that passes update validation passes create validation, but not conversely. */
  lemma UpdateIsStricterThanCreate(body: Body, name: Bounds, description: Bounds, isEmail: string -> bool)
    ensures Accepts(UpdateSchema(name, description), body, isEmail) ==>
            Accepts(CreateSchema(name, description), body, isEmail)
    ensures "color" !in body ==> !Accepts(UpdateSchema(name, description), body, isEmail)
  {
    UpdateSchemaMeaning(body, name, description, isEmail);
    CreateSchemaMeaning(body, name, description, isEmail);
  }

  /** shareSchema accepts exactly a body holding one non-empty string that is an e-mail address. */
  lemma ShareSchemaMeaning(body: Body, isEmail: string -> bool)
    ensures Accepts(ShareSchema, body, isEmail) <==>
      body.Keys == {"email"} && body["email"].Str? && body["email"].s != "" && isEmail(body["email"].s)
  {
    var v := Lookup(body, "email");
    if v.Some? && v.value.Str? && v.value.s != "" {
      assert [EmailFormat][0] == EmailFormat;
    }
  }

  /**
   * Lengths are counted as JavaScript counts them: under the calendar-name
   * bounds 5..100, three emoji make a name of length 6, which is accepted,
   * and fifty-one make one of length 102, which is rejected.
   */
  lemma NameLengthInCodeUnits()
    ensures Utf16Length("\U{1F600}\U{1F600}\U{1F600}") == 6
    ensures NameOk(map["name" := Str("\U{1F600}\U{1F600}\U{1F600}")], CalendarNameLength)
    ensures forall s: string | |s| == 51 && (forall i | 0 <= i < |s| :: s[i] == '\U{1F600}') ::
      !NameOk(map["name" := Str(s)], CalendarNameLength)
  {
    forall s: string | |s| == 51 && (forall i | 0 <= i < |s| :: s[i] == '\U{1F600}')
      ensures !NameOk(map["name" := Str(s)], CalendarNameLength)
    {
      AllWideLength(s);
    }
  }

  /** A string of characters outside the Basic Multilingual Plane has twice as many code units. */
  lemma {:induction false} AllWideLength(s: string)
    requires forall i | 0 <= i < |s| :: s[i] as int >= 0x1_0000
    ensures Utf16Length(s) == 2 * |s|
  {
    if s != [] {
      assert forall i | 0 <= i < |s[1..]| :: s[1..][i] == s[i + 1];
      AllWideLength(s[1..]);
    }
  }
}
