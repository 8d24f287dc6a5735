/** The option and button normalisers (`_parse_select_options` and
    `_parse_action_buttons`): a mixed list of declarations becomes a list of
    records carrying at least `value` and `label`. */
module Options {
  import opened Wrappers
  import opened Values

  /** The rules one normaliser applies: the positional keys a `list` item is
      zipped with, the admitted `list` lengths, and the assertion messages. */
  datatype Shape = Shape(keys: seq<string>, minLen: nat, maxLen: nat, missingKey: string, badFormat: string)

  const OptionShape: Shape :=
    Shape(["value", "label", "selected", "disabled"], 2, 4,
          "options item must have value and label key", "options item format error")

  const ButtonShape: Shape :=
    Shape(["value", "label", "disabled"], 2, 3,
          "actions item must have value and label key", "actions item format error")

  /** The positional keys are distinct, start with `value` and `label`, and
      every admitted length can be zipped with them. */
  predicate WellShaped(sh: Shape) {
    && 2 <= sh.minLen <= sh.maxLen <= |sh.keys|
    && sh.keys[0] == "value" && sh.keys[1] == "label"
    && forall i, j | 0 <= i < j < |sh.keys| :: sh.keys[i] != sh.keys[j]
  }

  lemma ShapesWellShaped()
    ensures WellShaped(OptionShape) && WellShaped(ButtonShape)
  {
  }

  /** The record pairing each element of `xs` with the positional key at the
      same index; `xs` is no longer than `keys`. */
  function Zip(keys: seq<string>, xs: seq<Value>): (r: Spec)
    requires |xs| <= |keys|
    requires forall i, j | 0 <= i < j < |keys| :: keys[i] != keys[j]
    ensures r.Keys == set i | 0 <= i < |xs| :: keys[i]
    ensures forall i | 0 <= i < |xs| :: keys[i] in r && r[keys[i]] == xs[i]
  {
    map i | 0 <= i < |xs| :: keys[i] := xs[i]
  }

  /** The record a bare (neither mapping nor list) item stands for. */
  function Scalar(x: Value): (r: Spec)
    ensures r.Keys == {"value", "label"}
    ensures r["value"] == x && r["label"] == x
  {
    map["value" := x, "label" := x]
  }

  /** One item: a mapping must carry `value` and `label` and is kept as it
      is; a `list` of an admitted length is zipped with the positional keys;
      anything else, a tuple included, is used as both value and label. */
  function NormalizeItem(sh: Shape, item: Value): (r: Result<Spec>)
    requires WellShaped(sh)
    ensures r.Ok? ==> "value" in r.value && "label" in r.value
    ensures r.Err? ==> r.error == AssertionError(sh.missingKey) || r.error == AssertionError(sh.badFormat)
    ensures item.Dict? ==>
              && (r.Ok? <==> "value" in item.entries && "label" in item.entries)
              && (r.Ok? ==> r.value == item.entries)
              && (r.Err? ==> r.error == AssertionError(sh.missingKey))
    ensures item.List? ==>
              && (r.Ok? <==> sh.minLen <= |item.items| <= sh.maxLen)
              && (r.Ok? ==> r.value.Keys == set i | 0 <= i < |item.items| :: sh.keys[i])
              && (r.Ok? ==> forall i | 0 <= i < |item.items| :: r.value[sh.keys[i]] == item.items[i])
              && (r.Err? ==> r.error == AssertionError(sh.badFormat))
    ensures !item.Dict? && !item.List? ==> r == Ok(Scalar(item))
  {
    match item
    case Dict(m) =>
      if "value" in m && "label" in m then Ok(m) else Err(AssertionError(sh.missingKey))
    case List(xs) =>
      if sh.minLen <= |xs| <= sh.maxLen then
        Ok(Zip(sh.keys, xs))
      else
        Err(AssertionError(sh.badFormat))
    case _ => Ok(Scalar(item))
  }

  /** Whether `i` is the first item the normaliser rejects. */
  ghost predicate FirstRejected(sh: Shape, items: seq<Value>, i: int)
    requires WellShaped(sh)
  {
    && 0 <= i < |items|
    && NormalizeItem(sh, items[i]).Err?
    && forall j | 0 <= j < i :: NormalizeItem(sh, items[j]).Ok?
  }

  /** The whole list, in order; the first rejected item aborts it. */
  function NormalizeAll(sh: Shape, items: seq<Value>): (r: Result<seq<Spec>>)
    requires WellShaped(sh)
    ensures r.Ok? <==> forall i | 0 <= i < |items| :: NormalizeItem(sh, items[i]).Ok?
    ensures r.Ok? ==> |r.value| == |items|
    ensures r.Ok? ==> forall i | 0 <= i < |items| :: NormalizeItem(sh, items[i]) == Ok(r.value[i])
    ensures r.Err? ==> exists i :: FirstRejected(sh, items, i) && r.error == NormalizeItem(sh, items[i]).error
    decreases |items|
  {
    if |items| == 0 then Ok([])
    else
      var head :- NormalizeItem(sh, items[0]);
      var tail :- NormalizeAll(sh, items[1..]);
      Ok([head] + tail)
  }

  /** `_parse_select_options`. */
  function NormalizeSelectOptions(options: seq<Value>): (r: Result<seq<Spec>>)
    ensures r.Ok? ==> |r.value| == |options|
    ensures r.Ok? ==> forall i | 0 <= i < |r.value| :: "value" in r.value[i] && "label" in r.value[i]
  {
    NormalizeAll(OptionShape, options)
  }

  /** `_parse_action_buttons`. */
  function NormalizeActionButtons(buttons: seq<Value>): (r: Result<seq<Spec>>)
    ensures r.Ok? ==> |r.value| == |buttons|
    ensures r.Ok? ==> forall i | 0 <= i < |r.value| :: "value" in r.value[i] && "label" in r.value[i]
  {
    NormalizeAll(ButtonShape, buttons)
  }

  /** Normalising an already normalised list gives it back unchanged. */
  lemma {:induction false} NormalizeIdempotent(sh: Shape, items: seq<Value>)
    requires WellShaped(sh)
    requires NormalizeAll(sh, items).Ok?
    ensures NormalizeAll(sh, AsDicts(NormalizeAll(sh, items).value)) == NormalizeAll(sh, items)
  {
    var rs := NormalizeAll(sh, items).value;
    var again := NormalizeAll(sh, AsDicts(rs));
    assert forall i | 0 <= i < |rs| :: NormalizeItem(sh, AsDicts(rs)[i]) == Ok(rs[i]);
    assert again.Ok? && again.value == rs;
  }

  /** An option given as a `list` of fewer than two or more than four
      elements is a format error. */
  lemma OptionListLengthRejected(xs: seq<Value>)
    requires |xs| < 2 || 4 < |xs|
    ensures NormalizeSelectOptions([List(xs)]) == Err(AssertionError("options item format error"))
  {
  }

  /** A button given as a `list` of fewer than two or more than three
      elements is a format error. */
  lemma ButtonListLengthRejected(xs: seq<Value>)
    requires |xs| < 2 || 3 < |xs|
    ensures NormalizeActionButtons([List(xs)]) == Err(AssertionError("actions item format error"))
  {
  }

  /** A tuple of any length is a scalar: it becomes its own value and label. */
  lemma TupleIsScalar(sh: Shape, xs: seq<Value>)
    requires WellShaped(sh)
    ensures NormalizeAll(sh, [Tuple(xs)]) == Ok([Scalar(Tuple(xs))])
  {
    var items := [Tuple(xs)];
    assert NormalizeItem(sh, items[0]) == Ok(Scalar(Tuple(xs)));
    assert NormalizeAll(sh, items[1..]) == Ok([]);
    assert [Scalar(Tuple(xs))] + [] == [Scalar(Tuple(xs))];
  }
}
