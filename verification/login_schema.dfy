/** The login and registration form schemas (src/lib/schemas/login.schema.js), as the
    zod library applies them: a field that is not a string stops at a type issue, and a
    string runs every one of its checks, collecting one issue per failed check, field by
    field in declaration order. The two email fields are not part of this model. */
module LoginSchema {
  import opened Wrappers
  import opened Json
  import opened Text

  /** The character classes of the password patterns: `[a-z]`, `[A-Z]`, `\d` and
      `[!@#$%^&*(),.?":{}|<>]`. */
  datatype CharClass = LowerLetter | UpperLetter | Digit | Special

  const SpecialChars: string := "!@#$%^&*(),.?\":{}|<>"

  predicate InClass(c: char, k: CharClass) {
    match k
    case LowerLetter => IsAsciiLower(c)
    case UpperLetter => IsAsciiUpper(c)
    case Digit => IsDigit(c)
    case Special => c in SpecialChars
  }

  /** A string check with its own message: `.min(n, message)` or `.regex(class, message)`. */
  datatype Rule = MinLength(n: nat, message: string) | Pattern(chars: CharClass, message: string)

  /** `.min` counts UTF-16 code units; a pattern needs one character of its class. */
  predicate Passes(s: string, r: Rule) {
    match r
    case MinLength(n, _) => Utf16Length(s) >= n
    case Pattern(k, _) => exists i :: 0 <= i < |s| && InClass(s[i], k)
  }

  /** The messages of the failed checks, in declaration order. */
  function FailedMessages(s: string, rules: seq<Rule>): (r: seq<string>)
    ensures |r| <= |rules|
    ensures r == [] <==> forall i :: 0 <= i < |rules| ==> Passes(s, rules[i])
    ensures forall m :: m in r ==> exists i :: 0 <= i < |rules| && rules[i].message == m && !Passes(s, rules[i])
  {
    if |rules| == 0 then []
    else
      var rest := FailedMessages(s, rules[1..]);
      assert forall i :: 1 <= i < |rules| ==> rules[i] == rules[1..][i - 1];
      if Passes(s, rules[0]) then rest else [rules[0].message] + rest
  }

  /** With distinct messages, a message is reported exactly when its check fails. */
  lemma {:induction false} FailedMessageIff(s: string, rules: seq<Rule>, i: nat)
    requires i < |rules|
    requires forall a, b :: 0 <= a < b < |rules| ==> rules[a].message != rules[b].message
    ensures rules[i].message in FailedMessages(s, rules) <==> !Passes(s, rules[i])
  {
    if i > 0 {
      FailedMessageIff(s, rules[1..], i - 1);
    }
  }

  /** zod's name for the type of a value it did not expect. */
  function ParsedType(j: Json): string {
    match j
    case JNull => "null"
    case JBool(_) => "boolean"
    case JNum(_) => "number"
    case JStr(_) => "string"
    case JArr(_) => "array"
    case JObj(_) => "object"
  }

  /** The type issue of `z.string()`: "Required" for a missing field. */
  function TypeMessage(v: Val): string {
    match v
    case None => "Required"
    case Some(j) => "Expected string, received " + ParsedType(j)
  }

  /** The schema of one field: a checked string, an optional string, or anything. */
  datatype FieldSchema = Checked(rules: seq<Rule>) | OptionalString | Anything

  datatype Issue = Issue(path: string, message: string)

  /** The issues of one field of the submitted object. */
  function FieldIssues(form: map<string, Json>, name: string, schema: FieldSchema): (r: seq<Issue>)
    ensures forall k :: 0 <= k < |r| ==> r[k].path == name
    ensures schema.Anything? ==> r == []
    ensures r == [] <==> match schema
      case Checked(rules) =>
        name in form && form[name].JStr? && forall i :: 0 <= i < |rules| ==> Passes(form[name].s, rules[i])
      case OptionalString => name !in form || form[name].JStr?
      case Anything => true
  {
    var v: Val := if name in form then Some(form[name]) else None;
    var messages :=
      match schema
      case Checked(rules) => if v.Some? && v.value.JStr? then FailedMessages(v.value.s, rules) else [TypeMessage(v)]
      case OptionalString => if v.None? || v.value.JStr? then [] else [TypeMessage(v)]
      case Anything => [];
    seq(|messages|, k requires 0 <= k < |messages| => Issue(name, messages[k]))
  }

  /** A field name with its schema, in declaration order. */
  datatype Field = Field(name: string, schema: FieldSchema)

  /** The issues of every field, field by field. */
  function Issues(form: map<string, Json>, fields: seq<Field>): (r: seq<Issue>)
    ensures r == [] <==> forall i :: 0 <= i < |fields| ==> FieldIssues(form, fields[i].name, fields[i].schema) == []
  {
    if |fields| == 0 then []
    else
      assert forall i :: 1 <= i < |fields| ==> fields[i] == fields[1..][i - 1];
      FieldIssues(form, fields[0].name, fields[0].schema) + Issues(form, fields[1..])
  }

  const LoginPasswordRules: seq<Rule> := [MinLength(6, "Password must be at least 6 characters")]

  const LoginFields: seq<Field> := [Field("password", Checked(LoginPasswordRules))]

  const RegisterPasswordRules: seq<Rule> := [
    MinLength(8, "Must be at least 8 characters long."),
    Pattern(LowerLetter, "Must include at least 1 lowercase letter."),
    Pattern(UpperLetter, "Must include at least 1 uppercase letter."),
    Pattern(Digit, "Must include at least 1 number."),
    Pattern(Special, "Must include at least 1 special character.")]

  const RegisterFields: seq<Field> := [
    Field("firstName", Checked([MinLength(1, "First name is required")])),
    Field("lastName", Checked([MinLength(1, "Last name is required")])),
    Field("username", Checked([MinLength(5, "Username must be at least 5 characters")])),
    Field("password", Checked(RegisterPasswordRules)),
    Field("bio", OptionalString),
    Field("profileImage", Anything)]

  function LoginIssues(form: map<string, Json>): (r: seq<Issue>)
    ensures r == [] <==> "password" in form && form["password"].JStr? && Utf16Length(form["password"].s) >= 6
  {
    var r := Issues(form, LoginFields);
    assert FieldIssues(form, LoginFields[0].name, LoginFields[0].schema) == [] <==>
      "password" in form && form["password"].JStr? && Passes(form["password"].s, LoginPasswordRules[0]);
    r
  }

  function RegisterIssues(form: map<string, Json>): seq<Issue> {
    Issues(form, RegisterFields)
  }

  /** A string field at least `n` code units long. */
  predicate StringOfLength(form: map<string, Json>, name: string, n: nat) {
    name in form && form[name].JStr? && Utf16Length(form[name].s) >= n
  }

  predicate HasCharOf(s: string, k: CharClass) {
    exists i :: 0 <= i < |s| && InClass(s[i], k)
  }

  /** The registration rules stated field by field. */
  predicate ValidRegistration(form: map<string, Json>) {
    && StringOfLength(form, "firstName", 1)
    && StringOfLength(form, "lastName", 1)
    && StringOfLength(form, "username", 5)
    && StringOfLength(form, "password", 8)
    && HasCharOf(form["password"].s, LowerLetter)
    && HasCharOf(form["password"].s, UpperLetter)
    && HasCharOf(form["password"].s, Digit)
    && HasCharOf(form["password"].s, Special)
    && ("bio" !in form || form["bio"].JStr?)
  }

  /** The registration schema reports nothing exactly when every rule holds. */
  lemma RegisterIssuesEmptyIff(form: map<string, Json>)
    ensures RegisterIssues(form) == [] <==> ValidRegistration(form)
  {
    var fs := RegisterFields;
    assert RegisterIssues(form) == [] <==> forall i :: 0 <= i < 6 ==> FieldOk(form, fs[i]);
    assert (forall i :: 0 <= i < 6 ==> FieldOk(form, fs[i])) <==>
      FieldOk(form, fs[0]) && FieldOk(form, fs[1]) && FieldOk(form, fs[2])
      && FieldOk(form, fs[3]) && FieldOk(form, fs[4]) && FieldOk(form, fs[5]);
    assert FieldOk(form, fs[0]) <==> StringOfLength(form, "firstName", 1) by {
      assert fs[0] == Field("firstName", Checked([MinLength(1, "First name is required")]));
      SingleMinimum(form, "firstName", 1, "First name is required");
    }
    assert FieldOk(form, fs[1]) <==> StringOfLength(form, "lastName", 1) by {
      assert fs[1] == Field("lastName", Checked([MinLength(1, "Last name is required")]));
      SingleMinimum(form, "lastName", 1, "Last name is required");
    }
    assert FieldOk(form, fs[2]) <==> StringOfLength(form, "username", 5) by {
      assert fs[2] == Field("username", Checked([MinLength(5, "Username must be at least 5 characters")]));
      SingleMinimum(form, "username", 5, "Username must be at least 5 characters");
    }
    assert FieldOk(form, fs[3]) <==> && StringOfLength(form, "password", 8)
                                     && HasCharOf(form["password"].s, LowerLetter)
                                     && HasCharOf(form["password"].s, UpperLetter)
                                     && HasCharOf(form["password"].s, Digit)
                                     && HasCharOf(form["password"].s, Special) by {
      assert fs[3] == Field("password", Checked(RegisterPasswordRules));
      PasswordFieldIff(form);
    }
    assert FieldOk(form, fs[4]) <==> ("bio" !in form || form["bio"].JStr?) by {
      assert fs[4] == Field("bio", OptionalString);
    }
    assert FieldOk(form, fs[5]) by {
      assert fs[5] == Field("profileImage", Anything);
    }
  }

  /** One field of the object passes its schema. */
  predicate FieldOk(form: map<string, Json>, f: Field) {
    FieldIssues(form, f.name, f.schema) == []
  }

  lemma SingleMinimum(form: map<string, Json>, name: string, n: nat, message: string)
    ensures FieldIssues(form, name, Checked([MinLength(n, message)])) == [] <==> StringOfLength(form, name, n)
  {
  }

  lemma PasswordFieldIff(form: map<string, Json>)
    ensures FieldIssues(form, "password", Checked(RegisterPasswordRules)) == [] <==>
      && StringOfLength(form, "password", 8)
      && HasCharOf(form["password"].s, LowerLetter)
      && HasCharOf(form["password"].s, UpperLetter)
      && HasCharOf(form["password"].s, Digit)
      && HasCharOf(form["password"].s, Special)
  {
    if "password" in form && form["password"].JStr? {
      RegisterPasswordPasses(form["password"].s);
    }
  }

  /** A password string passes the five registration rules exactly when it is long
      enough and has a character of each class. */
  lemma RegisterPasswordPasses(p: string)
    ensures (forall i :: 0 <= i < |RegisterPasswordRules| ==> Passes(p, RegisterPasswordRules[i])) <==>
      && Utf16Length(p) >= 8
      && HasCharOf(p, LowerLetter)
      && HasCharOf(p, UpperLetter)
      && HasCharOf(p, Digit)
      && HasCharOf(p, Special)
  {
    var rules := RegisterPasswordRules;
    assert Passes(p, rules[0]) <==> Utf16Length(p) >= 8;
    assert Passes(p, rules[1]) <==> HasCharOf(p, LowerLetter);
    assert Passes(p, rules[2]) <==> HasCharOf(p, UpperLetter);
    assert Passes(p, rules[3]) <==> HasCharOf(p, Digit);
    assert Passes(p, rules[4]) <==> HasCharOf(p, Special);
    assert (forall i :: 0 <= i < 5 ==> Passes(p, rules[i])) <==>
      Passes(p, rules[0]) && Passes(p, rules[1]) && Passes(p, rules[2]) && Passes(p, rules[3]) && Passes(p, rules[4]);
  }

  /** Each failed password rule is reported with its own message, and only failed rules
      are. */
  lemma PasswordMessageIff(password: string, i: nat)
    requires i < |RegisterPasswordRules|
    ensures RegisterPasswordRules[i].message in FailedMessages(password, RegisterPasswordRules)
        <==> !Passes(password, RegisterPasswordRules[i])
  {
    FailedMessageIff(password, RegisterPasswordRules, i);
  }

  /** A missing password is one "Required" issue, not one per rule. */
  lemma MissingPasswordIsRequired(form: map<string, Json>)
    requires "password" !in form
    ensures FieldIssues(form, "password", Checked(RegisterPasswordRules)) == [Issue("password", "Required")]
  {
  }
}
