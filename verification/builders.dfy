/** The per-kind field builders: each gathers its parameters into a widget
    specification, forces its kind, and pairs the specification with a
    validator and a preprocessing transform. */
module Builders {
  import opened Wrappers
  import opened Values
  import opened Args
  import opened Options
  import opened Transforms

  const TEXT: string := "text"
  const NUMBER: string := "number"
  const PASSWORD: string := "password"
  const CHECKBOX: string := "checkbox"
  const RADIO: string := "radio"
  const SELECT: string := "select"
  const TEXTAREA: string := "textarea"
  const ACTIONS: string := "actions"
  const FILE: string := "file"

  /** The kinds the generic text builder accepts. */
  const InputKinds: set<Value> := {Str(TEXT), Str(NUMBER), Str(PASSWORD), Str(TEXTAREA)}

  /** What a builder produces instead of a suspended call: the specification
      sent to the renderer, the field validator, and the transform applied to
      the submitted value before validation. */
  datatype Field = Field(spec: Spec, validator: Validator, transform: Transform)

  /** The keyword parameters most builders share, with `name` defaulting to
      `"data"` and the others to `None`. */
  datatype Common = Common(
    validFunc: Value, name: Value, value: Value, placeholder: Value,
    required: Value, readonly: Value, disabled: Value, helpText: Value)

  const DefaultName: Value := Str("data")
  const DefaultCommon: Common := Common(None, DefaultName, None, None, None, None, None, None)
  const DefaultRows: Value := Int(6)
  const DefaultFilePlaceholder: Value := Str("Choose file")

  const CommonParams: set<string> :=
    {"valid_func", "name", "value", "placeholder", "required", "readonly", "disabled", "help_text"}

  /** The shared parameters as keyword arguments. */
  function CommonNamed(c: Common): (m: Spec)
    ensures ValidatorKey in m && m[ValidatorKey] == c.validFunc
  {
    map["name" := c.name, "value" := c.value, "placeholder" := c.placeholder,
        "required" := c.required, "readonly" := c.readonly, "disabled" := c.disabled,
        "help_text" := c.helpText][ValidatorKey := c.validFunc]
  }

  /** The validator a builder passes on: the caller's `valid_func`
      unchanged, or the default one when it is `None`. */
  function ValidatorOf(c: Common): Validator {
    if c.validFunc.None? then AcceptAll else Supplied(c.validFunc)
  }

  /** Python binds a keyword that names a parameter to that parameter, so the
      extra-attribute bag never holds one. */
  predicate Unbound(extras: Spec, params: set<string>) {
    extras.Keys !! params
  }

  /** Through the shared parameters, the validator is the default one
      exactly when `valid_func` is `None`. */
  lemma CommonValidator(named: Spec, extras: Spec, params: set<string>, c: Common)
    requires Unbound(extras, params) && ValidatorKey in params
    requires ValidatorKey in named && named[ValidatorKey] == c.validFunc
    ensures ParseArgs(named, extras).validator.AcceptAll? <==> c.validFunc.None?
    ensures ParseArgs(named, extras).validator == ValidatorOf(c)
  {
  }

  // ---- input ------------------------------------------------------------

  const InputParams: set<string> := CommonParams + {"label", "type"}

  function InputNamed(title: Value, kind: Value, c: Common): (m: Spec)
    ensures ValidatorKey in m && m[ValidatorKey] == c.validFunc
    ensures "type" in m && m["type"] == kind
  {
    CommonNamed(c) + map["label" := title, "type" := kind]
  }

  /** What `input` relies on from the normaliser: the kind survives, and the
      validator is the default one exactly when `valid_func` is `None`. */
  lemma InputParsed(title: Value, kind: Value, c: Common, extras: Spec)
    requires Unbound(extras, InputParams) && !kind.None?
    ensures var p := ParseArgs(InputNamed(title, kind, c), extras);
            && "type" in p.spec && p.spec["type"] == kind
            && (p.validator.AcceptAll? <==> c.validFunc.None?)
            && p.validator == ValidatorOf(c)
  {
    var named := InputNamed(title, kind, c);
    CommonValidator(named, extras, InputParams, c);
    assert "type" in InputParams;
    KeptNamed(named, extras, "type");
  }

  /** `input`: a text-like field whose kind must be one of `text`, `number`,
      `password` and `textarea`; a `number` field parses its submission with
      `int()`, the others pass it through. The kind is looked up in a set, so
      an unhashable kind fails with a `TypeError` before the assertion. */
  function Input(title: Value, kind: Value, c: Common, extras: Spec): (r: Result<Field>)
    requires Unbound(extras, InputParams)
    ensures r.Ok? <==> kind in InputKinds
    ensures !Hashable(kind) ==> r.Err? && r.error.TypeError?
    ensures Hashable(kind) && kind !in InputKinds ==> r == Err(AssertionError("Input type not allowed."))
    ensures r.Ok? ==> "type" in r.value.spec && r.value.spec["type"] == kind
    ensures r.Ok? ==> (r.value.transform == ToInt <==> kind == Str(NUMBER))
    ensures r.Ok? && kind != Str(NUMBER) ==> r.value.transform == Identity
    ensures r.Ok? ==> (r.value.validator.AcceptAll? <==> c.validFunc.None?)
    ensures r.Ok? ==> r.value.validator == ValidatorOf(c)
  {
    if !Hashable(kind) then Err(TypeError("unhashable type"))
    else if kind !in InputKinds then Err(AssertionError("Input type not allowed."))
    else
      var p := ParseArgs(InputNamed(title, kind, c), extras);
      InputParsed(title, kind, c, extras);
      Ok(Field(p.spec, p.validator, if kind == Str(NUMBER) then ToInt else Identity))
  }

  /** Apart from the kind it was given, an `input` specification is exactly
      what the argument normaliser keeps. */
  lemma InputCarries(title: Value, kind: Value, c: Common, extras: Spec)
    requires Unbound(extras, InputParams)
    requires kind in InputKinds
    ensures Carries(Input(title, kind, c, extras).value.spec, InputNamed(title, kind, c), extras, {})
  {
    ParseArgsCarries(InputNamed(title, kind, c), extras);
  }

  // ---- textarea ---------------------------------------------------------

  const TextareaParams: set<string> := CommonParams + {"label", "rows", "code", "maxlength", "minlength"}

  function TextareaNamed(title: Value, rows: Value, code: Value, maxlength: Value, minlength: Value, c: Common): (m: Spec)
    ensures ValidatorKey in m && m[ValidatorKey] == c.validFunc
  {
    CommonNamed(c)
      + map["label" := title, "rows" := rows, "code" := code, "maxlength" := maxlength, "minlength" := minlength]
  }

  /** `textarea`: a multi-line text field; its kind is `textarea` whatever
      the extras say, and its submission passes through unchanged. */
  function Textarea(title: Value, rows: Value, code: Value, maxlength: Value, minlength: Value,
                    c: Common, extras: Spec): (r: Field)
    requires Unbound(extras, TextareaParams)
    ensures "type" in r.spec && r.spec["type"] == Str(TEXTAREA)
    ensures r.transform == Identity
    ensures r.validator.AcceptAll? <==> c.validFunc.None?
    ensures r.validator == ValidatorOf(c)
  {
    var named := TextareaNamed(title, rows, code, maxlength, minlength, c);
    var p := ParseArgs(named, extras);
    CommonValidator(named, extras, TextareaParams, c);
    Field(p.spec["type" := Str(TEXTAREA)], p.validator, Identity)
  }

  /** Apart from its forced kind, a `textarea` specification is exactly what
      the argument normaliser keeps. */
  lemma TextareaCarries(title: Value, rows: Value, code: Value, maxlength: Value, minlength: Value,
                        c: Common, extras: Spec)
    requires Unbound(extras, TextareaParams)
    ensures Carries(Textarea(title, rows, code, maxlength, minlength, c, extras).spec,
                    TextareaNamed(title, rows, code, maxlength, minlength, c), extras, {"type"})
  {
    var named := TextareaNamed(title, rows, code, maxlength, minlength, c);
    ParseArgsCarries(named, extras);
    CarriesOverride(ParseArgs(named, extras).spec, named, extras, {}, "type", Str(TEXTAREA));
  }

  // ---- select, checkbox, radio -----------------------------------------

  /** The parameter that sets a choice builder apart: `multiple` for
      `select`, `inline` for `checkbox` and `radio`. */
  datatype Flag = Multiple | Inline {
    function Key(): (k: string)
      ensures k != ValidatorKey && k != BagKey && k != "options" && k != "type"
    {
      match this
      case Multiple => "multiple"
      case Inline => "inline"
    }
  }

  function ChoiceParams(flag: Flag): set<string> {
    CommonParams + {"label", "options", flag.Key()}
  }

  function ChoiceNamed(title: Value, options: seq<Value>, flag: Flag, flagValue: Value, c: Common): (m: Spec)
    ensures ValidatorKey in m && m[ValidatorKey] == c.validFunc
  {
    CommonNamed(c) + map["label" := title, "options" := List(options), flag.Key() := flagValue]
  }

  /** The shared body of `select`, `checkbox` and `radio`: the options are
      normalised and the kind is forced to `kind`. */
  function Choice(kind: string, title: Value, options: seq<Value>, flag: Flag, flagValue: Value,
                  c: Common, extras: Spec): (r: Result<Field>)
    requires Unbound(extras, ChoiceParams(flag))
    ensures r.Ok? <==> NormalizeSelectOptions(options).Ok?
    ensures r.Err? ==> r.error == NormalizeSelectOptions(options).error
    ensures r.Ok? ==> "type" in r.value.spec && r.value.spec["type"] == Str(kind)
    ensures r.Ok? ==> "options" in r.value.spec
                      && r.value.spec["options"] == List(AsDicts(NormalizeSelectOptions(options).value))
    ensures r.Ok? ==> r.value.transform == Identity
    ensures r.Ok? ==> (r.value.validator.AcceptAll? <==> c.validFunc.None?)
    ensures r.Ok? ==> r.value.validator == ValidatorOf(c)
  {
    var named := ChoiceNamed(title, options, flag, flagValue, c);
    var p := ParseArgs(named, extras);
    var opts :- NormalizeSelectOptions(options);
    CommonValidator(named, extras, ChoiceParams(flag), c);
    Ok(Field(p.spec["options" := List(AsDicts(opts))]["type" := Str(kind)], p.validator, Identity))
  }

  /** Apart from its options and forced kind, a choice specification is
      exactly what the argument normaliser keeps. */
  lemma ChoiceCarries(kind: string, title: Value, options: seq<Value>, flag: Flag, flagValue: Value,
                      c: Common, extras: Spec)
    requires Unbound(extras, ChoiceParams(flag))
    requires NormalizeSelectOptions(options).Ok?
    ensures Carries(Choice(kind, title, options, flag, flagValue, c, extras).value.spec,
                    ChoiceNamed(title, options, flag, flagValue, c), extras, {"type", "options"})
  {
    var named := ChoiceNamed(title, options, flag, flagValue, c);
    var p := ParseArgs(named, extras);
    var opts := NormalizeSelectOptions(options).value;
    ParseArgsCarries(named, extras);
    CarriesOverride(p.spec, named, extras, {}, "options", List(AsDicts(opts)));
    CarriesOverride(p.spec["options" := List(AsDicts(opts))], named, extras, {"options"}, "type", Str(kind));
  }

  /** `select`: a drop-down list. */
  function Select(title: Value, options: seq<Value>, multiple: Value, c: Common, extras: Spec): (r: Result<Field>)
    requires Unbound(extras, ChoiceParams(Multiple))
    ensures r.Ok? <==> NormalizeSelectOptions(options).Ok?
    ensures r.Ok? ==> "type" in r.value.spec && r.value.spec["type"] == Str(SELECT)
  {
    Choice(SELECT, title, options, Multiple, multiple, c, extras)
  }

  /** `checkbox`: a group of check boxes. */
  function Checkbox(title: Value, options: seq<Value>, inline: Value, c: Common, extras: Spec): (r: Result<Field>)
    requires Unbound(extras, ChoiceParams(Inline))
    ensures r.Ok? <==> NormalizeSelectOptions(options).Ok?
    ensures r.Ok? ==> "type" in r.value.spec && r.value.spec["type"] == Str(CHECKBOX)
  {
    Choice(CHECKBOX, title, options, Inline, inline, c, extras)
  }

  /** `radio`: a group of radio buttons. */
  function Radio(title: Value, options: seq<Value>, inline: Value, c: Common, extras: Spec): (r: Result<Field>)
    requires Unbound(extras, ChoiceParams(Inline))
    ensures r.Ok? <==> NormalizeSelectOptions(options).Ok?
    ensures r.Ok? ==> "type" in r.value.spec && r.value.spec["type"] == Str(RADIO)
  {
    Choice(RADIO, title, options, Inline, inline, c, extras)
  }

  // ---- actions ----------------------------------------------------------

  function ActionsNamed(title: Value, buttons: seq<Value>, name: Value, helpText: Value): Spec {
    map["label" := title, "buttons" := List(buttons), "name" := name, "help_text" := helpText]
  }

  /** `actions`: a row of submit buttons. It takes no validator and no extra
      attributes, so its validator is always the default one. */
  function Actions(title: Value, buttons: seq<Value>, name: Value, helpText: Value): (r: Result<Field>)
    ensures r.Ok? <==> NormalizeActionButtons(buttons).Ok?
    ensures r.Err? ==> r.error == NormalizeActionButtons(buttons).error
    ensures r.Ok? ==> "type" in r.value.spec && r.value.spec["type"] == Str(ACTIONS)
    ensures r.Ok? ==> "buttons" in r.value.spec
                      && r.value.spec["buttons"] == List(AsDicts(NormalizeActionButtons(buttons).value))
    ensures r.Ok? ==> r.value.transform == Identity && r.value.validator == AcceptAll
  {
    var named := ActionsNamed(title, buttons, name, helpText);
    var p := ParseArgs(named, map[]);
    var bs :- NormalizeActionButtons(buttons);
    Ok(Field(p.spec["type" := Str(ACTIONS)]["buttons" := List(AsDicts(bs))], p.validator, Identity))
  }

  /** Apart from its buttons and forced kind, an `actions` specification is
      exactly what the argument normaliser keeps of the named parameters. */
  lemma ActionsCarries(title: Value, buttons: seq<Value>, name: Value, helpText: Value)
    requires NormalizeActionButtons(buttons).Ok?
    ensures Carries(Actions(title, buttons, name, helpText).value.spec,
                    ActionsNamed(title, buttons, name, helpText), map[], {"type", "buttons"})
  {
    var named := ActionsNamed(title, buttons, name, helpText);
    var p := ParseArgs(named, map[]);
    var bs := NormalizeActionButtons(buttons).value;
    ParseArgsCarries(named, map[]);
    CarriesOverride(p.spec, named, map[], {}, "type", Str(ACTIONS));
    CarriesOverride(p.spec["type" := Str(ACTIONS)], named, map[], {"type"}, "buttons", List(AsDicts(bs)));
  }

  // ---- file_upload ------------------------------------------------------

  const FileParams: set<string> := {"label", "accept", "name", "placeholder", "help_text"}

  function FileNamed(title: Value, accept: Value, name: Value, placeholder: Value, helpText: Value): Spec {
    map["label" := title, "accept" := accept, "name" := name, "placeholder" := placeholder, "help_text" := helpText]
  }

  /** `file_upload`: a file picker whose submission is decoded by
      `read_file`. It has no `valid_func` parameter, so a validator can only
      arrive as an extra attribute of that name. */
  function FileUpload(title: Value, accept: Value, name: Value, placeholder: Value, helpText: Value,
                      extras: Spec): (r: Field)
    requires Unbound(extras, FileParams)
    ensures "type" in r.spec && r.spec["type"] == Str(FILE)
    ensures r.transform == ReadFile
    ensures r.validator == (if ValidatorKey in extras then Supplied(extras[ValidatorKey]) else AcceptAll)
  {
    var named := FileNamed(title, accept, name, placeholder, helpText);
    var p := ParseArgs(named, extras);
    Field(p.spec["type" := Str(FILE)], p.validator, ReadFile)
  }

  /** Apart from its forced kind, a `file_upload` specification is exactly
      what the argument normaliser keeps. */
  lemma FileUploadCarries(title: Value, accept: Value, name: Value, placeholder: Value, helpText: Value,
                          extras: Spec)
    requires Unbound(extras, FileParams)
    ensures Carries(FileUpload(title, accept, name, placeholder, helpText, extras).spec,
                    FileNamed(title, accept, name, placeholder, helpText), extras, {"type"})
  {
    var named := FileNamed(title, accept, name, placeholder, helpText);
    ParseArgsCarries(named, extras);
    CarriesOverride(ParseArgs(named, extras).spec, named, extras, {}, "type", Str(FILE));
  }
}
