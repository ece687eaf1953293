/** The request validator (src/validation/RequestValidator.ts): a registry of named type
    validators, templates that map property keys to type names, and the check of a request's
    body, query, headers and params against every template registered for them. A thrown
    `Error` is a `Fail` carrying what the error's message is built from. */
module Validation {
  import opened Results
  import opened Text
  import opened Json
  import opened Http

  /** A validator returns `true` (`Pass`) or a description of what it received (`Fail`). */
  type ValidatorFunc = Value -> Outcome<string>

  // ---------------------------------------------------------------------------------------
  // The built-in validators

  function StringType(v: Value): (r: Outcome<string>)
    ensures r.Pass? <==> v.Str?
    ensures r.Fail? ==> r.error == "string expected, received \"" + Typeof(v) + "\""
  {
    if Typeof(v) == "string" then Pass else Fail("string expected, received \"" + Typeof(v) + "\"")
  }

  function NumberType(v: Value): (r: Outcome<string>)
    ensures r.Pass? <==> v.Num?
    ensures r.Fail? ==> r.error == "number expected, received \"" + Typeof(v) + "\""
  {
    if Typeof(v) == "number" then Pass else Fail("number expected, received \"" + Typeof(v) + "\"")
  }

  /** The message of the boolean validator lacks the space and doubles the closing quote. */
  function BooleanType(v: Value): (r: Outcome<string>)
    ensures r.Pass? <==> v.Bool?
    ensures r.Fail? ==> r.error == "boolean expected, received\"" + Typeof(v) + "\"\""
  {
    if Typeof(v) == "boolean" then Pass else Fail("boolean expected, received\"" + Typeof(v) + "\"\"")
  }

  /** A number that is truthy and at least 1; zero and negative numbers fail. */
  function PositiveNumber(v: Value): (r: Outcome<string>)
    ensures r.Pass? <==> v.Num? && v.n >= 1
    ensures r.Fail? ==> r.error == "non-zero number expected, received " + Display(v)
  {
    if Typeof(v) == "number" && Truthy(v) && v.n >= 1 then Pass
    else Fail("non-zero number expected, received " + Display(v))
  }

  /** Anything but `undefined`, `null` included. */
  function Defined(v: Value): (r: Outcome<string>)
    ensures r.Pass? <==> !v.Undefined?
    ensures r.Fail? ==> r.error == "value is not defined"
  {
    if Typeof(v) != "undefined" then Pass else Fail("value is not defined")
  }

  /** The keys of `TypeValidator` as `Object.keys` lists them at start-up. */
  const BuiltInNames: seq<string> := ["string", "number", "boolean", "PositiveNumber", "defined"]

  function BuiltIns(): (m: map<string, ValidatorFunc>)
    ensures m.Keys == set n | n in BuiltInNames
  {
    map["string" := StringType, "number" := NumberType, "boolean" := BooleanType,
        "PositiveNumber" := PositiveNumber, "defined" := Defined]
  }

  // ---------------------------------------------------------------------------------------
  // Templates

  /** One entry of an expect template: a property key and a type name. */
  datatype Expectation = Expectation(key: string, typeName: string)

  /** An expect template, its entries in the order `Object.keys` lists them. */
  type Template = seq<Expectation>

  /** A key ending in `?` names an optional property. */
  predicate Optional(key: string) {
    EndsWith(key, "?")
  }

  /** The property a key names: the key without its trailing `?`. */
  function PropertyName(key: string): (p: string)
    ensures Optional(key) ==> key == p + "?"
    ensures !Optional(key) ==> p == key
  {
    if Optional(key) then DropLast(key, 1) else key
  }

  /** A type name ending in `[]` asks for an array. */
  predicate IsArrayType(typeName: string) {
    EndsWith(typeName, "[]")
  }

  /** The validator name of a type: the name without one trailing `[]`. */
  function BaseType(typeName: string): (t: string)
    ensures IsArrayType(typeName) ==> typeName == t + "[]"
    ensures !IsArrayType(typeName) ==> t == typeName
  {
    if IsArrayType(typeName) then DropLast(typeName, 2) else typeName
  }

  // ---------------------------------------------------------------------------------------
  // Checking a target

  /** The error `validateTarget` throws. `NoValidator` is the `TypeError` of calling a
      validator that is not registered. */
  datatype ValidationError =
    | Missing(property: string)
    | NotArray(property: string)
    | Invalid(property: string, result: string)
    | NoValidator(typeName: string)
  {
    function Message(): (m: string)
      ensures m != ""
    {
      match this
      case Missing(p) => "Request does not contain property \"" + p + "\""
      case NotArray(p) => "Property \"" + p + "\" must be an array"
      case Invalid(p, result) => "Validation failed for \"" + p + "\": " + result
      case NoValidator(_) => "TypeValidator[expectedType] is not a function"
    }
  }

  /** What an entry demands of a target, stated over all values at once. */
  predicate Satisfies(registry: map<string, ValidatorFunc>, target: Value, e: Expectation) {
    var p := PropertyName(e.key);
    var base := BaseType(e.typeName);
    if !HasOwn(target, p) then Optional(e.key)
    else if IsArrayType(e.typeName) then
      && target.props[p].Arr?
      && forall i :: 0 <= i < |target.props[p].items| ==>
           base in registry && registry[base](target.props[p].items[i]).Pass?
    else base in registry && registry[base](target.props[p]).Pass?
  }

  /** The loop over the values of one property: the first value the validator refuses
      decides the error. */
  function CheckValues(validator: ValidatorFunc, values: seq<Value>, property: string): (r: Outcome<ValidationError>)
    ensures r.Pass? <==> forall i :: 0 <= i < |values| ==> validator(values[i]).Pass?
    ensures r.Fail? ==>
      exists i :: (&& 0 <= i < |values|
                   && validator(values[i]).Fail?
                   && r.error == Invalid(property, validator(values[i]).error)
                   && forall j :: 0 <= j < i ==> validator(values[j]).Pass?)
    decreases |values|
  {
    if values == [] then Pass
    else
      var result := validator(values[0]);
      if result.Fail? then Fail(Invalid(property, result.error))
      else
        var rest := CheckValues(validator, values[1..], property);
        assert forall i :: 1 <= i < |values| ==> values[i] == values[1..][i - 1];
        if rest.Fail? then
          ghost var i :| (&& 0 <= i < |values[1..]|
                          && validator(values[1..][i]).Fail?
                          && rest.error == Invalid(property, validator(values[1..][i]).error)
                          && forall j :: 0 <= j < i ==> validator(values[1..][j]).Pass?);
          assert values[1..][i] == values[i + 1];
          rest
        else rest
  }

  /** One turn of the loop over the template's keys. */
  function CheckEntry(registry: map<string, ValidatorFunc>, target: Value, e: Expectation): (r: Outcome<ValidationError>)
    ensures r.Pass? <==> Satisfies(registry, target, e)
    ensures !HasOwn(target, PropertyName(e.key)) ==>
      (r.Pass? <==> Optional(e.key)) && (r.Fail? ==> r.error == Missing(PropertyName(e.key)))
    ensures HasOwn(target, PropertyName(e.key)) && IsArrayType(e.typeName) && !target.props[PropertyName(e.key)].Arr? ==>
      r == Fail(NotArray(PropertyName(e.key)))
    ensures r.Fail? && r.error.Invalid? ==> r.error.property == PropertyName(e.key)
  {
    var property := PropertyName(e.key);
    var base := BaseType(e.typeName);
    if !HasOwn(target, property) then
      if Optional(e.key) then Pass else Fail(Missing(property))
    else
      var value := target.props[property];
      if IsArrayType(e.typeName) && !value.Arr? then Fail(NotArray(property))
      else
        var values := if IsArrayType(e.typeName) then value.items else [value];
        if base !in registry then
          if values == [] then Pass
          else
            assert values[0] in values;
            Fail(NoValidator(base))
        else CheckValues(registry[base], values, property)
  }

  /** The `i`-th entry of `template` is the first that fails, and `r` is its failure. */
  predicate FailsFirstAt(registry: map<string, ValidatorFunc>, target: Value, template: Template, i: int, r: Outcome<ValidationError>) {
    && 0 <= i < |template|
    && r == CheckEntry(registry, target, template[i])
    && forall j :: 0 <= j < i ==> Satisfies(registry, target, template[j])
  }

  /** `validateTarget`: the entries in order, the first failing one decides the error. */
  function ValidateTarget(registry: map<string, ValidatorFunc>, target: Value, template: Template): (r: Outcome<ValidationError>)
    ensures r.Pass? <==> forall i :: 0 <= i < |template| ==> Satisfies(registry, target, template[i])
    ensures r.Fail? ==> exists i :: FailsFirstAt(registry, target, template, i, r)
    decreases |template|
  {
    if template == [] then Pass
    else
      var first := CheckEntry(registry, target, template[0]);
      if first.Fail? then
        assert FailsFirstAt(registry, target, template, 0, first);
        first
      else
        var rest := ValidateTarget(registry, target, template[1..]);
        assert forall i :: 1 <= i < |template| ==> template[i] == template[1..][i - 1];
        if rest.Fail? then
          ghost var i :| FailsFirstAt(registry, target, template[1..], i, rest);
          FailsFirstAtNext(registry, target, template, i, rest);
          rest
        else rest
  }

  /** A failure first found in the tail, after a head entry that passes, is the first failure
      of the whole template, one place further on. */
  lemma FailsFirstAtNext(registry: map<string, ValidatorFunc>, target: Value, template: Template, i: int, r: Outcome<ValidationError>)
    requires template != [] && Satisfies(registry, target, template[0])
    requires FailsFirstAt(registry, target, template[1..], i, r)
    ensures FailsFirstAt(registry, target, template, i + 1, r)
  {
    assert template[1..][i] == template[i + 1];
    forall j | 0 <= j < i + 1
      ensures Satisfies(registry, target, template[j])
    {
      if j > 0 {
        assert template[j] == template[1..][j - 1];
      }
    }
  }

  /** Every entry of the first `k` templates holds of `target`. */
  predicate TemplatesPassBefore(registry: map<string, ValidatorFunc>, target: Value, templates: seq<Template>, k: int)
    requires k <= |templates|
  {
    forall j, i :: 0 <= j < k && 0 <= i < |templates[j]| ==> Satisfies(registry, target, templates[j][i])
  }

  /** Template `k` is the first of `templates` to fail, and `r` is its failure. */
  predicate TemplateFailsFirstAt(registry: map<string, ValidatorFunc>, target: Value, templates: seq<Template>, k: int, r: Outcome<ValidationError>) {
    && 0 <= k < |templates|
    && r.Fail?
    && r == ValidateTarget(registry, target, templates[k])
    && TemplatesPassBefore(registry, target, templates, k)
  }

  /** Several templates on one target: each must pass, the first failure decides. */
  function ValidateTemplates(registry: map<string, ValidatorFunc>, target: Value, templates: seq<Template>): (r: Outcome<ValidationError>)
    ensures r.Pass? <==> forall k, i :: 0 <= k < |templates| && 0 <= i < |templates[k]| ==> Satisfies(registry, target, templates[k][i])
    ensures r.Fail? ==> exists k :: TemplateFailsFirstAt(registry, target, templates, k, r)
    decreases |templates|
  {
    if templates == [] then Pass
    else
      var first := ValidateTarget(registry, target, templates[0]);
      if first.Fail? then
        assert TemplateFailsFirstAt(registry, target, templates, 0, first);
        first
      else
        var rest := ValidateTemplates(registry, target, templates[1..]);
        assert forall k :: 1 <= k < |templates| ==> templates[k] == templates[1..][k - 1];
        if rest.Fail? then
          ghost var k :| TemplateFailsFirstAt(registry, target, templates[1..], k, rest);
          TemplateFailsFirstAtNext(registry, target, templates, k, rest);
          rest
        else rest
  }

  /** A failure first in the templates after a passing one is first in them all, one place on. */
  lemma TemplateFailsFirstAtNext(registry: map<string, ValidatorFunc>, target: Value, templates: seq<Template>, k: int, r: Outcome<ValidationError>)
    requires templates != [] && forall i :: 0 <= i < |templates[0]| ==> Satisfies(registry, target, templates[0][i])
    requires TemplateFailsFirstAt(registry, target, templates[1..], k, r)
    ensures TemplateFailsFirstAt(registry, target, templates, k + 1, r)
  {
    assert templates[1..][k] == templates[k + 1];
    forall j, i | 0 <= j < k + 1 && 0 <= i < |templates[j]|
      ensures Satisfies(registry, target, templates[j][i])
    {
      if j > 0 {
        assert templates[j] == templates[1..][j - 1];
      }
    }
  }

  // ---------------------------------------------------------------------------------------
  // Targets

  datatype Target = Body | Query | Headers | Params

  /** `ValidationTargets`, the order in which `validate` visits the targets. */
  const Targets: seq<Target> := [Body, Query, Headers, Params]

  /** `req[target] || {}`. */
  function TargetValue(req: HttpRequest, t: Target): (v: Value)
    ensures Truthy(v)
    ensures var raw := match t case Body => req.body case Query => req.query case Headers => req.headers case Params => req.params;
      (Truthy(raw) ==> v == raw) && (!Truthy(raw) ==> v == Obj(map[]))
  {
    var raw := match t
      case Body => req.body
      case Query => req.query
      case Headers => req.headers
      case Params => req.params;
    if Truthy(raw) then raw else Obj(map[])
  }

  /** The templates registered for a target; none when it has no entry. */
  function TemplatesFor(templates: map<Target, seq<Template>>, t: Target): seq<Template> {
    if t in templates then templates[t] else []
  }

  /** A request meets every entry of every template registered for every target. */
  predicate Conforms(registry: map<string, ValidatorFunc>, templates: map<Target, seq<Template>>, req: HttpRequest) {
    forall t, k, i :: 0 <= k < |TemplatesFor(templates, t)| && 0 <= i < |TemplatesFor(templates, t)[k]| ==>
      Satisfies(registry, TargetValue(req, t), TemplatesFor(templates, t)[k][i])
  }

  /** Every entry of every template registered for `t` holds of the request. */
  predicate TargetPasses(registry: map<string, ValidatorFunc>, templates: map<Target, seq<Template>>, req: HttpRequest, t: Target) {
    forall k, i :: 0 <= k < |TemplatesFor(templates, t)| && 0 <= i < |TemplatesFor(templates, t)[k]| ==>
      Satisfies(registry, TargetValue(req, t), TemplatesFor(templates, t)[k][i])
  }

  /** Every target from the `from`-th up to the `n`-th passes. */
  predicate TargetsPassBetween(registry: map<string, ValidatorFunc>, templates: map<Target, seq<Template>>, req: HttpRequest, from: int, n: int)
    requires 0 <= from && n <= |Targets|
  {
    forall m :: from <= m < n ==> TargetPasses(registry, templates, req, Targets[m])
  }

  /** Target `n` is the first from `from` on to fail, and `r` is its failure. */
  predicate TargetFailsFirstAt(registry: map<string, ValidatorFunc>, templates: map<Target, seq<Template>>, req: HttpRequest, from: nat, n: int, r: Outcome<ValidationError>) {
    && from <= n < |Targets|
    && r.Fail?
    && r == ValidateTemplates(registry, TargetValue(req, Targets[n]), TemplatesFor(templates, Targets[n]))
    && TargetsPassBetween(registry, templates, req, from, n)
  }

  /** `r` passes exactly when every target from the `from`-th on passes, and a failure is the first target's from there on. */
  ghost predicate OutcomeFrom(registry: map<string, ValidatorFunc>, templates: map<Target, seq<Template>>, req: HttpRequest, from: nat, r: Outcome<ValidationError>)
    requires from <= |Targets|
  {
    && (r.Pass? <==> TargetsPassBetween(registry, templates, req, from, |Targets|))
    && (r.Fail? ==> exists n :: TargetFailsFirstAt(registry, templates, req, from, n, r))
  }

  /** `validate`, from the `from`-th target on. */
  function ValidateFrom(registry: map<string, ValidatorFunc>, templates: map<Target, seq<Template>>, req: HttpRequest, from: nat): (r: Outcome<ValidationError>)
    requires from <= |Targets|
    ensures OutcomeFrom(registry, templates, req, from, r)
    decreases |Targets| - from, 1
  {
    if from == |Targets| then Pass
    else
      var t := Targets[from];
      var first := ValidateTemplates(registry, TargetValue(req, t), TemplatesFor(templates, t));
      if first.Fail? then
        assert TargetFailsFirstAt(registry, templates, req, from, from, first);
        first
      else
        PassingTargetStep(registry, templates, req, from, from + 1);
        ValidateFrom(registry, templates, req, from + 1)
  }

  /** After a passing target, the outcome for the targets after it is the outcome from it on. */
  lemma PassingTargetStep(registry: map<string, ValidatorFunc>, templates: map<Target, seq<Template>>, req: HttpRequest, from: nat, next: nat)
    requires from < |Targets| && next == from + 1
    requires ValidateTemplates(registry, TargetValue(req, Targets[from]), TemplatesFor(templates, Targets[from])).Pass?
    ensures OutcomeFrom(registry, templates, req, from, ValidateFrom(registry, templates, req, next))
    decreases |Targets| - from, 0
  {
    assert TargetPasses(registry, templates, req, Targets[from]);
    var rest := ValidateFrom(registry, templates, req, next);
    TargetsPassFrom(registry, templates, req, from, |Targets|);
    if rest.Fail? {
      TargetFailsFirstAtPrev(registry, templates, req, from, next, rest);
    }
  }

  /** A failure first among the targets after a passing one is first from that one on. */
  lemma TargetFailsFirstAtPrev(registry: map<string, ValidatorFunc>, templates: map<Target, seq<Template>>, req: HttpRequest, from: nat, next: nat, r: Outcome<ValidationError>)
    requires from < |Targets| && next == from + 1 && TargetPasses(registry, templates, req, Targets[from])
    requires exists n :: TargetFailsFirstAt(registry, templates, req, next, n, r)
    ensures exists n :: TargetFailsFirstAt(registry, templates, req, from, n, r)
  {
    var n :| TargetFailsFirstAt(registry, templates, req, next, n, r);
    TargetsPassFrom(registry, templates, req, from, n);
    assert TargetFailsFirstAt(registry, templates, req, from, n, r);
  }

  /** Passing the targets `from` up to `n` is passing the `from`-th, then those after it. */
  lemma TargetsPassFrom(registry: map<string, ValidatorFunc>, templates: map<Target, seq<Template>>, req: HttpRequest, from: nat, n: int)
    requires from < |Targets| && from < n <= |Targets|
    ensures TargetsPassBetween(registry, templates, req, from, n) <==>
      TargetPasses(registry, templates, req, Targets[from]) && TargetsPassBetween(registry, templates, req, from + 1, n)
  {
  }

  /** `validate` passes exactly when the request conforms; with no template it always passes. */
  lemma ValidateIffConforms(registry: map<string, ValidatorFunc>, templates: map<Target, seq<Template>>, req: HttpRequest)
    ensures ValidateFrom(registry, templates, req, 0).Pass? <==> Conforms(registry, templates, req)
    ensures templates == map[] ==> ValidateFrom(registry, templates, req, 0).Pass?
  {
    var r := ValidateFrom(registry, templates, req, 0);
    if r.Pass? {
      forall t, k, i | 0 <= k < |TemplatesFor(templates, t)| && 0 <= i < |TemplatesFor(templates, t)[k]|
        ensures Satisfies(registry, TargetValue(req, t), TemplatesFor(templates, t)[k][i])
      {
        var n := match t case Body => 0 case Query => 1 case Headers => 2 case Params => 3;
        assert Targets[n] == t;
      }
    }
  }

  // ---------------------------------------------------------------------------------------
  // Which type names a registry knows

  /** Every entry of every template names a registered validator, after one `[]` is stripped. */
  predicate WellTyped(registry: map<string, ValidatorFunc>, templates: map<Target, seq<Template>>) {
    forall t, k, i :: t in templates && 0 <= k < |templates[t]| && 0 <= i < |templates[t][k]| ==>
      BaseType(templates[t][k][i].typeName) in registry
  }

  /** Templates that `expect` admitted never make `validate` call a missing validator. */
  lemma WellTypedNeverMissesValidator(registry: map<string, ValidatorFunc>, templates: map<Target, seq<Template>>, req: HttpRequest)
    requires WellTyped(registry, templates)
    ensures ValidateFrom(registry, templates, req, 0).Fail? ==> !ValidateFrom(registry, templates, req, 0).error.NoValidator?
  {
    NoValidatorFrom(registry, templates, req, 0);
  }

  lemma {:induction false} NoValidatorFrom(registry: map<string, ValidatorFunc>, templates: map<Target, seq<Template>>, req: HttpRequest, from: nat)
    requires WellTyped(registry, templates) && from <= |Targets|
    ensures ValidateFrom(registry, templates, req, from).Fail? ==> !ValidateFrom(registry, templates, req, from).error.NoValidator?
    decreases |Targets| - from
  {
    if from < |Targets| {
      var t := Targets[from];
      NoValidatorInTemplates(registry, TargetValue(req, t), TemplatesFor(templates, t));
      NoValidatorFrom(registry, templates, req, from + 1);
    }
  }

  lemma {:induction false} NoValidatorInTemplates(registry: map<string, ValidatorFunc>, target: Value, templates: seq<Template>)
    requires forall k, i :: 0 <= k < |templates| && 0 <= i < |templates[k]| ==> BaseType(templates[k][i].typeName) in registry
    ensures ValidateTemplates(registry, target, templates).Fail? ==> !ValidateTemplates(registry, target, templates).error.NoValidator?
    decreases |templates|
  {
    if templates != [] {
      var first := ValidateTarget(registry, target, templates[0]);
      if first.Fail? {
        var i :| 0 <= i < |templates[0]| && first == CheckEntry(registry, target, templates[0][i]);
        assert BaseType(templates[0][i].typeName) in registry;
      } else {
        assert forall k :: 1 <= k < |templates| ==> templates[1..][k - 1] == templates[k];
        NoValidatorInTemplates(registry, target, templates[1..]);
      }
    }
  }

  /** Adding validators keeps every admitted template well typed. */
  lemma WellTypedGrows(small: map<string, ValidatorFunc>, large: map<string, ValidatorFunc>, templates: map<Target, seq<Template>>)
    requires WellTyped(small, templates) && small.Keys <= large.Keys
    ensures WellTyped(large, templates)
  {
  }

  // ---------------------------------------------------------------------------------------
  // Examples from the behaviour the tests describe

  /** A property that is present but `undefined` is still type-checked. */
  lemma UndefinedPropertyIsChecked(p: string)
    requires !Optional(p)
    ensures CheckEntry(BuiltIns(), Obj(map[p := Undefined]), Expectation(p, "string"))
         == Fail(Invalid(p, "string expected, received \"" + "undefined" + "\""))
  {
    assert !IsArrayType("string");
    assert BaseType("string") == "string";
    assert BuiltIns()["string"] == StringType;
    assert CheckValues(StringType, [Undefined], p) == Fail(Invalid(p, "string expected, received \"" + "undefined" + "\""));
  }

  /** An array given where a single number is expected fails on the array itself. */
  lemma ArrayForScalarFails(p: string, items: seq<Value>)
    requires !Optional(p)
    ensures CheckEntry(BuiltIns(), Obj(map[p := Arr(items)]), Expectation(p, "number"))
         == Fail(Invalid(p, "number expected, received \"" + "object" + "\""))
  {
    assert !IsArrayType("number");
    assert BaseType("number") == "number";
    assert BuiltIns()["number"] == NumberType;
    assert CheckValues(NumberType, [Arr(items)], p) == Fail(Invalid(p, "number expected, received \"" + "object" + "\""));
  }

  /** `number[]` accepts an array of numbers, refuses a non-array, and names the first element
      that is not a number. */
  lemma NumberArray(p: string)
    requires !Optional(p)
    ensures CheckEntry(BuiltIns(), Obj(map[p := Arr([Num(1), Num(2)])]), Expectation(p, "number[]")) == Pass
    ensures CheckEntry(BuiltIns(), Obj(map[p := Num(1)]), Expectation(p, "number[]")) == Fail(NotArray(p))
    ensures CheckEntry(BuiltIns(), Obj(map[p := Arr([Num(1), Str("x"), Bool(true)])]), Expectation(p, "number[]"))
         == Fail(Invalid(p, "number expected, received \"" + "string" + "\""))
  {
    assert IsArrayType("number[]");
    assert BaseType("number[]") == "number";
    assert BuiltIns()["number"] == NumberType;
    var items := [Num(1), Str("x"), Bool(true)];
    assert CheckValues(NumberType, items[2..], p) == Fail(Invalid(p, "number expected, received \"" + "boolean" + "\""));
    assert CheckValues(NumberType, items[1..], p) == Fail(Invalid(p, "number expected, received \"" + "string" + "\""));
  }

  // ---------------------------------------------------------------------------------------
  // The registry and the validator

  /** The module-level `TypeValidator` object together with `VALID_TYPES`, its key list. */
  class TypeRegistry {
    var names: seq<string>
    var validators: map<string, ValidatorFunc>

    /** `VALID_TYPES` lists each registered name exactly once. */
    ghost predicate Valid()
      reads this
    {
      && (forall n :: n in validators <==> n in names)
      && (forall i, j :: 0 <= i < j < |names| ==> names[i] != names[j])
    }

    constructor ()
      ensures Valid()
      ensures names == BuiltInNames && validators == BuiltIns()
    {
      names := BuiltInNames;
      validators := BuiltIns();
    }

    /** `RequestValidator.defineValidator`: adds or overrides a validator; a new name joins the
        end of the key list. */
    method DefineValidator(key: string, validator: ValidatorFunc)
      requires Valid()
      modifies this
      ensures Valid()
      ensures validators == old(validators)[key := validator]
      ensures names == if key in old(validators) then old(names) else old(names) + [key]
    {
      var known := key in validators;
      validators := validators[key := validator];
      if !known {
        names := names + [key];
      }
    }
  }

  const NotAnObject := "Validator expect template must be an object."

  /** The message `expect` throws for an entry whose type is not registered. */
  function IncorrectType(key: string, typeName: string, names: seq<string>): string {
    "Validator expect template specifies incorrect type for property \"" + key + "\": " + typeName
      + ". Valid types are: " + Join(names, ",")
  }

  class RequestValidator {
    const registry: TypeRegistry
    var templates: map<Target, seq<Template>>

    /** Every registered template names types the shared registry knows. */
    ghost predicate Valid()
      reads this, registry
    {
      WellTyped(registry.validators, templates)
    }

    constructor (registry: TypeRegistry)
      ensures Valid()
      ensures this.registry == registry && templates == map[]
    {
      this.registry := registry;
      templates := map[];
    }

    /** `validate`: the targets in the order body, query, headers, params; per target every
        registered template in order, against `req[target] || {}`. */
    function Validate(req: HttpRequest): (r: Outcome<ValidationError>)
      reads this, registry
      ensures r.Pass? <==> Conforms(registry.validators, templates, req)
      ensures r.Fail? ==> exists n :: TargetFailsFirstAt(registry.validators, templates, req, 0, n, r)
      ensures Valid() && r.Fail? ==> !r.error.NoValidator?
    {
      assert Valid() ==> !ValidateFrom(registry.validators, templates, req, 0).Fail?
                         || !ValidateFrom(registry.validators, templates, req, 0).error.NoValidator? by {
        if Valid() {
          WellTypedNeverMissesValidator(registry.validators, templates, req);
        }
      }
      ValidateIffConforms(registry.validators, templates, req);
      ValidateFrom(registry.validators, templates, req, 0)
    }

    /** `expect`: refuses a template that is not an object (`None`) or names an unregistered
        type, naming the first such entry; otherwise appends it to the target's list. */
    method Expect(target: Target, template: Option<Template>) returns (r: Outcome<string>)
      requires registry.Valid() && Valid()
      modifies this
      ensures Valid()
      ensures r.Pass? <==> template.Some? && forall i :: 0 <= i < |template.value| ==> BaseType(template.value[i].typeName) in registry.validators
      ensures template.None? ==> r == Fail(NotAnObject)
      ensures template.Some? && r.Fail? ==>
        exists i :: (&& 0 <= i < |template.value|
                     && BaseType(template.value[i].typeName) !in registry.validators
                     && r.error == IncorrectType(template.value[i].key, BaseType(template.value[i].typeName), registry.names)
                     && forall j :: 0 <= j < i ==> BaseType(template.value[j].typeName) in registry.validators)
      ensures templates == if r.Pass? then old(templates)[target := TemplatesFor(old(templates), target) + [template.value]] else old(templates)
    {
      if template.None? {
        return Fail(NotAnObject);
      }
      var entries := template.value;
      var i := 0;
      while i < |entries|
        invariant 0 <= i <= |entries|
        invariant forall j :: 0 <= j < i ==> BaseType(entries[j].typeName) in registry.validators
        invariant templates == old(templates)
      {
        var typeName := BaseType(entries[i].typeName);
        if typeName !in registry.names {
          return Fail(IncorrectType(entries[i].key, typeName, registry.names));
        }
        i := i + 1;
      }
      ExpectKeepsWellTyped(registry.validators, templates, target, entries);
      templates := templates[target := TemplatesFor(templates, target) + [entries]];
      r := Pass;
    }
  }

  /** `expect` keeps the templates well typed: what it admits names registered types only. */
  lemma ExpectKeepsWellTyped(registry: map<string, ValidatorFunc>, templates: map<Target, seq<Template>>, target: Target, template: Template)
    requires WellTyped(registry, templates)
    requires forall i :: 0 <= i < |template| ==> BaseType(template[i].typeName) in registry
    ensures WellTyped(registry, templates[target := TemplatesFor(templates, target) + [template]])
  {
  }
}
