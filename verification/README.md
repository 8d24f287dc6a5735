# PyWebIO input specifications, in Dafny

This project models the declaration side of PyWebIO's input module
(`pywebio/input.py`). That is the code that turns a call such as
`input('Age', type=NUMBER, name='age')` into three things:

- the widget specification sent to the browser;
- the field validator;
- the preprocessing transform applied to the submitted value.

It also models how `input_group` merges several such declarations into one
form. The model is pure: every builder is a function from its parameters to
a `Field`, and every Python exception it can raise is an `Err` of a `Result`.

Modules, in dependency order:

- `Wrappers`: `Result` and the Python exception kinds (`AssertionError`,
  `KeyError`, `TypeError`, `AttributeError`, `ValueError`).
- `Values`: the Python values a specification holds (`None`, booleans,
  integers, strings, bytes, lists, tuples, dicts, opaque callables).
- `Args`: the argument normaliser `_parse_args`. It drops `None` named
  parameters, merges the extra-attribute bag last, and takes out
  `valid_func`.
- `Options`: `_parse_select_options` and `_parse_action_buttons`, as one
  normaliser parameterised by a `Shape`. The shape gives the positional keys,
  the admitted list lengths and the assertion messages.
- `Decimal`: `int()` applied to a decimal string, with a formatter and a
  round trip.
- `Base64`: a strict base64 decoder (section 4 of RFC 4648), plus the encoder
  a browser uses for data URLs, with a round trip.
- `Transforms`: the three preprocessing transforms. These are the identity,
  `int()` for `NUMBER` inputs, and `read_file` for uploads. `read_file`
  splits the data URL at its first comma and base64-decodes the rest.
- `Builders`: `input`, `textarea`, `select`, `checkbox`, `radio`, `actions`
  and `file_upload`.
- `Group`: the collection loop of `input_group`, its default auto-focus
  rule, and the form specification `{label, inputs}`.
- `Scenarios`: worked examples of the transforms. These are a number input
  given letters, digits, leading zeros, signs and bytes; the data URL of a
  five-byte text file; and two base64 edge cases.
- `FormScenarios`: builders called with their default parameters, and a
  group of two members left unnamed.

Where the documentation and the code disagree, the model follows the code:

- **Tuples.** The docstrings say an option or a button may be a tuple
  `(value, label, …)`. The code only zips `list` items positionally, so a
  tuple falls into the scalar branch and becomes its own value and label
  (`Options.TupleIsScalar`).
- **Duplicate names.** The module docstring (`pywebio/input.py:23`) says
  each member of a group is told apart in the result by its `name`.
  `input_group` does not check that the names are distinct. Both
  specifications stay in `inputs`, and the later field's transform and
  validator replace the earlier one's (`Group.DuplicateNamesLaterWins`).
  Two members that keep the default name `data` collide this way
  (`FormScenarios.UnnamedInputsCollide`).
- **Selected options.** The `select` docstring (`pywebio/input.py:154`) says
  at most one option may be selected unless `multiple` is set. The code does
  not check this, and neither does the model.
- **Validators on uploads.** `file_upload` has no `valid_func` parameter,
  but an extra attribute of that name still becomes its validator, because
  the normaliser pops `valid_func` after merging the extras
  (`Builders.FileUpload`).
- **Upload results.** The `file_upload` docstring (`pywebio/input.py:256`)
  says the result is a dict of `filename` and `content`. `read_file` returns
  the whole submitted dict with `content` added, so `dataurl` and any other
  submitted key are still there (`Transforms.ReadFileKeepsOthers`).

## Model

| member | source | states |
|---|---|---|
| `Args.ParseArgs` | pywebio/input.py:47-56 | the bag and `valid_func` never reach the specification; the validator is the default one exactly when no `valid_func` was supplied; a `valid_func` among the extras wins over the named one |
| `Args.ParseArgsCarries` | pywebio/input.py:52-54 | the specification's keys are the non-`None` named parameters plus the extras, minus the bag and `valid_func`; an extra shadows a named parameter of the same key |
| `Args.KeptNamed` | pywebio/input.py:52-53 | a non-`None` named parameter that no extra shadows reaches the specification unchanged |
| `Args.ExtraNoneKept` | pywebio/input.py:52-53 | an extra attribute whose value is `None` is kept, because the `None` filter runs before the merge |
| `Args.CarriesOverride` | pywebio/input.py:52-55 | overwriting one key of a normalised specification leaves every other key as the normaliser left it |
| `Args.NoneDropped` | pywebio/input.py:52 | a named parameter left at `None` and not given as an extra is absent from the specification |
| `Args.DefaultValidatorAccepts` | pywebio/input.py:55 | without a supplied `valid_func`, the validator returns `None` on every value |
| `Options.ShapesWellShaped` | pywebio/input.py:133-135 | both the option and the button shape have distinct positional keys starting with `value` and `label`, and every admitted list length fits them |
| `Options.NormalizeItem` | pywebio/input.py:131-137 | a mapping is accepted as is exactly when it has `value` and `label`, and otherwise fails with the shape's missing-key message; a list is accepted exactly when its length is admitted, is zipped positionally, and otherwise fails with the shape's format message; anything else becomes a scalar record; every accepted result has `value` and `label` |
| `Options.NormalizeAll` | pywebio/input.py:129-140 | the list is accepted exactly when every item is; the result keeps order and length; an error is the error of the first rejected item |
| `Options.NormalizeSelectOptions` | pywebio/input.py:124-140 | every normalised option carries `value` and `label`, one per declared option |
| `Options.NormalizeActionButtons` | pywebio/input.py:199-220 | every normalised button carries `value` and `label`, one per declared button |
| `Options.NormalizeIdempotent` | pywebio/input.py:129-140 | normalising an already normalised list gives it back unchanged |
| `Options.OptionListLengthRejected` | pywebio/input.py:133-134 | an option list of fewer than 2 or more than 4 elements fails with "options item format error" |
| `Options.ButtonListLengthRejected` | pywebio/input.py:213-214 | a button list of fewer than 2 or more than 3 elements fails with "actions item format error" |
| `Options.TupleIsScalar` | pywebio/input.py:136-137 | a tuple of any length is used as its own value and label |
| `Decimal.Parse` | pywebio/input.py:94 | `int()` of a string succeeds exactly on an optional sign followed by at least one digit; it otherwise raises `ValueError`; the sign fixes the sign of the result |
| `Decimal.ZerosValue` | pywebio/input.py:94 | a run of zeros is a digit string of value 0 |
| `Decimal.LeadingZeros` | pywebio/input.py:94 | leading zeros do not change the value of a digit string |
| `Decimal.ParseSigned` | pywebio/input.py:94 | `int()` of a sign (none, `+` or `-`) followed by digits is the digits' value, negated for `-` |
| `Decimal.ParseSignedZeros` | pywebio/input.py:94 | `int()` of a sign, any number of leading zeros and the digits of `n` is `n`, or `-n` after a `-`; so "007" is 7, "+5" is 5 and "-0" is 0 (without the interpreter's digit limit; see Left out) |
| `Decimal.DigitsRoundTrip` | pywebio/input.py:94 | the decimal digits of a natural number read back as that number |
| `Decimal.ParseFormat` | pywebio/input.py:94 | `int(str(n)) == n` for every integer `n` (on an interpreter with the default digit limit, for every integer of at most 4300 digits; see Left out) |
| `Base64.Decode` | pywebio/input.py:263 | a string whose length is not a multiple of four is a padding error; a decoded string yields three bytes per quantum, less its padding |
| `Base64.DecodeFinal` | pywebio/input.py:263 | a final quantum with one or two padding characters yields two or one bytes, and everything before the padding is in the alphabet |
| `Base64.DecodeOnlyAlphabet` | pywebio/input.py:263 | a string that decodes consists of alphabet characters followed by its padding, so any other character makes decoding fail |
| `Base64.DecodeAccepts` | pywebio/input.py:263 | whole quanta of alphabet characters followed by at most two padding characters always decode |
| `Base64.DecodeOkIff` | pywebio/input.py:263 | decoding succeeds exactly on whole quanta of alphabet characters followed by at most two padding characters |
| `Base64.DecodeEncode` | pywebio/input.py:263 | decoding the base64 encoding of any byte string gives it back |
| `Transforms.PyInt` | pywebio/input.py:92-95 | integers pass through; `True` and `False` become 1 and 0; a byte string converts exactly when its characters form a well-formed decimal; a string converts exactly when it is a well-formed decimal and otherwise raises `ValueError`; `None`, lists, tuples, dicts and callables raise `TypeError`; every success is an integer |
| `Transforms.Apply` | pywebio/input.py:92-95 | the identity transform returns the submission unchanged; a `NUMBER` field's transform yields an integer when it succeeds; an upload's transform yields a dict whose `content` is bytes |
| `Transforms.ToIntSignedZeros` | pywebio/input.py:92-95 | a `NUMBER` submission of a sign, leading zeros and the digits of `n` converts to `n`, or `-n` after a `-` |
| `Transforms.ToIntBytes` | pywebio/input.py:92-95 | a `NUMBER` submission given as bytes converts as the string of the same characters does |
| `Transforms.ToIntFormat` | pywebio/input.py:92-95 | a `NUMBER` submission of a formatted integer converts back to that integer |
| `Transforms.FirstComma` | pywebio/input.py:262 | the split point is a comma with no comma before it, or the end of the string when there is none |
| `Transforms.DataUrlContent` | pywebio/input.py:262-263 | a data URL without a comma cannot be unpacked into two parts (`ValueError`); otherwise the content is the decoding of everything after the first comma |
| `Transforms.ReadFileOf` | pywebio/input.py:261-264 | a missing `dataurl` is a `KeyError`; a bytes `dataurl` is a `TypeError` and any other non-string one an `AttributeError`; a payload that is not a dict is a `TypeError`; a string `dataurl` gives the submitted dict with `content` set to its decoded bytes, or the decoding error |
| `Transforms.ReadFileKeepsOthers` | pywebio/input.py:263-264 | on success the result has the submitted keys plus `content`, holds the decoded bytes under `content`, and keeps every other key's value |
| `Transforms.FirstCommaAfterHeader` | pywebio/input.py:262 | in `header,rest` with a comma-free header, the split falls right after the header |
| `Transforms.DataUrlRoundTrip` | pywebio/input.py:262-263 | a data URL made of any comma-free header and the base64 encoding of some bytes carries exactly those bytes |
| `Transforms.ReadFileRoundTrip` | pywebio/input.py:261-264 | uploading such a data URL stores exactly those bytes as `content` and keeps the other keys |
| `Transforms.LaterCommasReachDecoder` | pywebio/input.py:262 | only the first comma splits; later commas belong to the payload given to the decoder |
| `Builders.CommonValidator` | pywebio/input.py:86 | through the shared parameters, the validator is the caller's `valid_func` unchanged, or the default one exactly when `valid_func` is `None` |
| `Builders.InputParsed` | pywebio/input.py:86 | the normaliser keeps the kind given to `input`, and its validator is the caller's `valid_func`, or the default one when that is `None` |
| `Builders.Input` | pywebio/input.py:86-97 | the builder succeeds exactly when the kind is text, number, password or textarea; an unhashable kind fails the set lookup with a `TypeError`, and any other kind fails with "Input type not allowed."; the specification keeps the kind; the transform is `int()` exactly for number and the identity otherwise; the validator is the caller's `valid_func` unchanged, or the default one when that is `None` |
| `Builders.InputCarries` | pywebio/input.py:86 | an `input` specification is exactly what the normaliser keeps of its parameters and extras |
| `Builders.Textarea` | pywebio/input.py:118-121 | the kind is `textarea` whatever the extras say; the transform is the identity; the validator is the caller's `valid_func` unchanged, or the default one when that is `None` |
| `Builders.TextareaCarries` | pywebio/input.py:118-119 | apart from the forced kind, a `textarea` specification is exactly what the normaliser keeps |
| `Builders.Choice` | pywebio/input.py:159-163 | the builder succeeds exactly when the options normalise, and otherwise fails with the normaliser's error; the specification holds the normalised options and the forced kind; the transform is the identity; the validator is the caller's `valid_func` unchanged, or the default one when that is `None` |
| `Builders.ChoiceCarries` | pywebio/input.py:159-161 | apart from options and kind, a choice specification is exactly what the normaliser keeps |
| `Builders.Select` | pywebio/input.py:159-163 | `select` succeeds exactly when its options normalise, and its kind is `select` even when an extra attribute says otherwise |
| `Builders.Checkbox` | pywebio/input.py:175-179 | `checkbox` succeeds exactly when its options normalise, and its kind is `checkbox` |
| `Builders.Radio` | pywebio/input.py:192-196 | `radio` succeeds exactly when its options normalise, and its kind is `radio` |
| `Builders.Actions` | pywebio/input.py:236-240 | `actions` succeeds exactly when its buttons normalise, and otherwise fails with the normaliser's error; the kind is `actions`, the buttons are normalised, and the validator is always the default one |
| `Builders.ActionsCarries` | pywebio/input.py:236-238 | apart from kind and buttons, an `actions` specification is exactly what the normaliser keeps of its named parameters |
| `Builders.FileUpload` | pywebio/input.py:258-266 | the kind is `file` and the transform is `read_file`; the validator is the `valid_func` extra when there is one, and the default one otherwise |
| `Builders.FileUploadCarries` | pywebio/input.py:258-259 | apart from the forced kind, a `file_upload` specification is exactly what the normaliser keeps |
| `Group.FirstTextLike` | pywebio/input.py:306-310 | the scan stops at a text, number, password or select specification, and no earlier specification is one of those kinds |
| `Group.FocusFirst` | pywebio/input.py:306-310 | the scan succeeds exactly when every specification before the first text-like one has a kind that can be looked up, and otherwise raises `TypeError`; on success the first text-like specification gains `auto_focus = True` and every other specification is unchanged |
| `Group.AutoFocus` | pywebio/input.py:305-310 | when some specification already has an `auto_focus` key nothing changes; otherwise an unhashable kind before the first text-like specification raises `TypeError`, and on success only the first text-like specification is flagged |
| `Group.AutoFocusNoTextLike` | pywebio/input.py:305-310 | with no text-like specification a successful rule changes nothing, and the rule succeeds when every kind can be looked up |
| `Group.AutoFocusExactlyOne` | pywebio/input.py:305-310 | starting from no flag, after a successful rule a specification is flagged exactly when it is text-like and no earlier one is |
| `Group.AutoFocusIdempotent` | pywebio/input.py:305-310 | applying the rule to its own successful result changes nothing |
| `Group.AutoFocusSkipsCheckbox` | pywebio/input.py:305-310 | with checkbox, number and text members, the rule succeeds and the number member is the one focused |
| `Group.AutoFocusHashable` | pywebio/input.py:305-310 | when every kind can be looked up, as with the string kinds every builder sets, the rule succeeds |
| `Group.UnhashableKindBeforeText` | pywebio/input.py:306-308 | a list-valued kind ahead of a text member makes the scan raise |
| `Group.NameOf` | pywebio/input.py:299-300 | a field without a `name` is a `KeyError("name")`; an unhashable name is a `TypeError`; a name usable as a key is returned as is |
| `Group.Collect` | pywebio/input.py:296-302 | the loop succeeds exactly when every member has a usable name, and its specifications are the members' own, in declaration order |
| `Group.CollectError` | pywebio/input.py:296-302 | a failing loop reports the error of the first member without a usable name |
| `Group.CollectKeys` | pywebio/input.py:299-301 | the transform and validator maps are keyed by exactly the members' names |
| `Group.CollectLastWins` | pywebio/input.py:299-301 | for a repeated name, the last member of that name supplies its transform and validator |
| `Group.InputGroup` | pywebio/input.py:293-314 | the group succeeds exactly when every member has a usable name and the auto-focus rule succeeds on their specifications; the form specification is `{label, inputs}` with the auto-focused specifications in order; the form validator is passed through |
| `Group.InputGroupError` | pywebio/input.py:296-310 | a failing group reports the error of its first member without a usable name; when every name is usable, the error is the `TypeError` of the auto-focus scan |
| `Group.InputGroupOk` | pywebio/input.py:296-310 | members whose names are usable and whose kinds can be looked up always make a group |
| `Group.InputGroupMaps` | pywebio/input.py:299-301 | the form's transform and validator maps are keyed by the names, and the last member of a name wins |
| `Group.DuplicateNamesLaterWins` | pywebio/input.py:299-302 | two members of one name, with kinds that can be looked up, both stay in `inputs`, but only the later one's transform and validator are kept |
| `Scenarios.NumberSubmissions` | pywebio/input.py:92-95 | a number input rejects "abc" with a `ValueError`, and reads "17" as 17 and "-5" as -5 |
| `Scenarios.NonCanonicalNumbers` | pywebio/input.py:92-95 | a number input reads "007" as 7, "+5" as 5 and "-0" as 0 |
| `Scenarios.NumberFromBytes` | pywebio/input.py:92-95 | a number input reads the bytes `b"17"` as 17 |
| `Scenarios.StrayPaddingBits` | pywebio/input.py:263 | "QR==" decodes to the byte of "A" although the bits the padding discards are not zero |
| `Scenarios.DataAfterPadding` | pywebio/input.py:263 | "QQ==QUJD", with data after a padded quantum, is rejected |
| `Scenarios.HelloFirstQuantum` | pywebio/input.py:263 | "aGVs" decodes to the bytes of "hel" |
| `Scenarios.HelloLastQuantum` | pywebio/input.py:263 | the padded quantum "bG8=" decodes to the bytes of "lo" |
| `Scenarios.HelloPayload` | pywebio/input.py:263 | "aGVsbG8=" decodes to the bytes of "hello" |
| `Scenarios.HelloDataUrl` | pywebio/input.py:261-264 | the data URL of a text file containing "hello" yields those five bytes as its content |
| `FormScenarios.DefaultInput` | pywebio/input.py:59-86 | an `input` with the default parameters is named `data` and has the default validator |
| `FormScenarios.UnnamedInputsCollide` | pywebio/input.py:296-302 | a group of an unnamed `number` input and an unnamed `text` input keeps both specifications, but its only transform entry is `data`, mapped to the identity, so the `int()` conversion is lost |
| `FormScenarios.SharedDefaultName` | pywebio/input.py:296-302 | a group of two members both named `data`, with kinds that can be looked up, keeps both specifications, and its transform map has the single entry `data`, holding the later member's transform |
| `FormScenarios.DefaultTextarea` | pywebio/input.py:100-119 | a `textarea` with the default parameters has six rows and the name `data`, and no `code` or `maxlength` key |
| `FormScenarios.DefaultFileUpload` | pywebio/input.py:243-259 | a `file_upload` with the default placeholder has placeholder "Choose file" and no `accept` or `help_text` key, and its submission goes through `read_file` |

## Left out

- Suspension, rendering and submission handling: `single_input` and
  `input_control` live in `pywebio/input_ctrl.py`, which is not part of this
  model. A builder returns the `Field` it would hand to `single_input`, and
  `input_group` returns the `Form` it would hand to `input_control`.
- Coroutine introspection: `input_group` reads each member's locals through
  its suspended frame and then closes it. The model passes the members'
  `Field` values directly. A closed coroutine has no frame, so in Python a
  member object listed twice in one group, or reused in a second group,
  raises `AttributeError` when its locals are read again. A `Field` has no
  identity, so the model treats every list element as a new declaration.
- `Group.Collect`, `Group.InputGroup`, `Group.DuplicateNamesLaterWins`:
  succeed on a list that repeats one member object, such as `[f, f]`, where
  Python raises `AttributeError` on the second use. Their statements about
  repeated names hold for distinct member objects that share a name.
- Optimised mode: the model assumes `assert` statements run. Under
  `python -O` or `PYTHONOPTIMIZE` they are removed, and `Builders.Input`
  and the option and button normalisers behave differently (next line).
- `Builders.Input`, `Options.NormalizeItem`, `Options.NormalizeSelectOptions`,
  `Options.NormalizeActionButtons`: under `-O`, `input` accepts
  any kind, with the identity transform for every kind but `number`. A
  mapping option or button without `value` or `label` passes through as
  is. A list item is zipped with the positional keys whatever its length:
  `[x]` becomes `{value: x}` with no `label`, and elements past the last key
  are dropped. So "every normalised record carries `value` and `label`"
  holds only with assertions enabled.
- Running validators: user validators are opaque callables. `Args.Run` only
  says the default validator returns `None`.
- Logging, and the module's other files and examples.
- Dictionary key order: specifications are Dafny maps, so the order of keys
  in a specification is not modelled. The order of `inputs`, options and
  buttons is.
- Key types: specifications and option mappings are keyed by strings, while
  Python dicts accept any hashable key. The name maps of `input_group` are
  keyed by `Value`, and Python's `True == 1` equality of keys is not
  modelled.
- Containers: options and buttons are given as a sequence. Other iterables,
  such as generators or a tuple of options, are not modelled.
- Aliasing: `read_file` updates the submitted dict in place, and the
  auto-focus rule updates the members' own specifications. The model returns
  new values instead.
- `Decimal.Parse`: models `int()` on ASCII decimal strings only. Surrounding
  whitespace, `_` digit separators and non-ASCII digits, which Python also
  accepts, are not modelled. Decimal points and exponents are rejected, as
  Python's `int()` rejects them in a string. The limit on integer string
  conversion is not modelled either. Interpreters from CPython 3.11 on, and
  the 3.7 to 3.10 security releases, raise `ValueError` on a decimal string
  of more than 4300 digits by default. The limit is configurable through
  `sys.set_int_max_str_digits`. The model accepts every length.
- `Decimal.ParseFormat`, `Decimal.ParseSignedZeros`: hold for every length
  only without that limit. Under the default limit, `str(n)` and `int()`
  raise `ValueError` on more than 4300 digits.
- `Base64.Decode`: models a strict decoder. `b64decode` as called is
  lenient, and the two agree only on strings whose length is a multiple of
  four, made of alphabet characters followed by at most two `=`. On other
  strings the model fails where the lenient decoder may succeed:
  - it skips characters outside the alphabet instead of rejecting them;
  - it stops at the first complete padding, so excess `=` and data after the
    padding are ignored ("YQ===" gives `a`, "QQ==QUJD" gives `A`);
  - it counts only alphabet characters towards the length, so a string whose
    length is not a multiple of four can still decode ("QUJD=" gives `ABC`).
- `Transforms.PyInt`: a byte string is read one character per byte, with
  the same ASCII-only grammar as `Decimal.Parse`, and without its digit
  limit. The wording of the error messages approximates Python's. `Value`
  has no floats, so `int()` on a float submission is not modelled. Python
  truncates a float toward zero (`int(-2.7) == -2`), raises `OverflowError`
  on an infinity and raises `ValueError` on NaN. Nor are other objects that
  define `__int__` or `__index__`.
- `Group.NameOf`: an unhashable name is a `TypeError`, but its message is
  not Python's.
