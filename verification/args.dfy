/** The argument normaliser shared by every builder (`_parse_args`). */
module Args {
  import opened Values

  /** The validator a builder hands on: the default one, which accepts
      everything, or whatever value the caller supplied as `valid_func`. */
  datatype Validator = AcceptAll | Supplied(callable: Value)

  /** Calls a validator on a value. `invoke` is the (opaque) Python call of a
      user-supplied callable; the default validator returns `None`. */
  function Run(v: Validator, invoke: (Value, Value) -> Value, x: Value): Value {
    match v
    case AcceptAll => None
    case Supplied(f) => invoke(f, x)
  }

  /** Name under which the builders receive their extra-attribute bag. */
  const BagKey: string := "other_html_attrs"
  /** Name of the per-field validator parameter. */
  const ValidatorKey: string := "valid_func"

  datatype Parsed = Parsed(spec: Spec, validator: Validator)

  /** The named parameters whose value is not `None`. */
  function Present(named: Spec): (r: Spec)
    ensures forall k :: k in r <==> k in named && !named[k].None?
    ensures forall k | k in r :: r[k] == named[k]
  {
    map k | k in named && !named[k].None? :: named[k]
  }

  /** Whether a `valid_func` reaches the normaliser: a non-`None` named one,
      or any extra attribute of that name (extras are not filtered). */
  predicate SuppliesValidator(named: Spec, extras: Spec) {
    ValidatorKey in extras || (ValidatorKey in named && !named[ValidatorKey].None?)
  }

  /** `_parse_args`: drops the `None` named parameters, merges the extras in
      last, and removes the bag and the validator from the specification. */
  function ParseArgs(named: Spec, extras: Spec): (r: Parsed)
    ensures BagKey !in r.spec && ValidatorKey !in r.spec
    ensures r.validator.AcceptAll? <==> !SuppliesValidator(named, extras)
    ensures ValidatorKey in extras ==> r.validator == Supplied(extras[ValidatorKey])
    ensures ValidatorKey !in extras && SuppliesValidator(named, extras) ==>
              r.validator == Supplied(named[ValidatorKey])
  {
    var merged := Present(named) + extras;
    var validator := if ValidatorKey in merged then Supplied(merged[ValidatorKey]) else AcceptAll;
    Parsed(merged - {BagKey, ValidatorKey}, validator)
  }

  /** `spec` holds, apart from the keys in `overridden`, exactly what the
      argument normaliser keeps: every extra attribute, and every named
      parameter that is not `None` and not shadowed by an extra, never the
      bag or the validator. */
  ghost predicate Carries(spec: Spec, named: Spec, extras: Spec, overridden: set<string>) {
    && BagKey !in spec && ValidatorKey !in spec
    && (forall k | k !in overridden && k != BagKey && k != ValidatorKey ::
          k in spec <==> k in extras || (k in named && !named[k].None?))
    && (forall k | k in spec && k !in overridden && k in extras :: spec[k] == extras[k])
    && (forall k | k in spec && k !in overridden && k !in extras :: k in named && spec[k] == named[k])
  }

  /** The normaliser keeps every extra attribute (a `None` one included),
      and every named parameter that is not `None` and not shadowed by an
      extra, and nothing else. */
  lemma ParseArgsCarries(named: Spec, extras: Spec)
    ensures Carries(ParseArgs(named, extras).spec, named, extras, {})
    ensures ParseArgs(named, extras).spec.Keys == (Present(named).Keys + extras.Keys) - {BagKey, ValidatorKey}
  {
  }

  /** A named parameter that is not `None` and not shadowed by an extra
      reaches the specification unchanged. */
  lemma KeptNamed(named: Spec, extras: Spec, k: string)
    requires k in named && !named[k].None? && k !in extras && k != BagKey && k != ValidatorKey
    ensures k in ParseArgs(named, extras).spec && ParseArgs(named, extras).spec[k] == named[k]
  {
  }

  /** A named parameter left at `None` and not supplied as an extra is
      absent from the specification, so the renderer sees its own default. */
  lemma NoneDropped(named: Spec, extras: Spec, k: string)
    requires k in named && named[k].None? && k !in extras
    ensures k !in ParseArgs(named, extras).spec
  {
  }

  /** Overwriting a key other than the bag and the validator keeps the rest
      of what the normaliser produced. */
  lemma CarriesOverride(spec: Spec, named: Spec, extras: Spec, overridden: set<string>, k: string, v: Value)
    requires Carries(spec, named, extras, overridden)
    requires k != BagKey && k != ValidatorKey
    ensures Carries(spec[k := v], named, extras, overridden + {k})
  {
  }

  /** Without a supplied `valid_func`, the validator returns `None` (accepts)
      whatever it is called on. */
  lemma DefaultValidatorAccepts(named: Spec, extras: Spec, invoke: (Value, Value) -> Value, x: Value)
    requires !SuppliesValidator(named, extras)
    ensures Run(ParseArgs(named, extras).validator, invoke, x) == None
  {
  }

  /** An extra attribute set to `None` survives: the `None` filter runs
      before the extras are merged. */
  lemma ExtraNoneKept(named: Spec, extras: Spec, k: string)
    requires k in extras && extras[k] == None && k != BagKey && k != ValidatorKey
    ensures k in ParseArgs(named, extras).spec && ParseArgs(named, extras).spec[k] == None
  {
  }
}
