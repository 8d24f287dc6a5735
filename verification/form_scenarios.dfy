/** Builders called with their default parameters, and a group of two such
    members, as worked examples of the general contracts. */
module FormScenarios {
  import opened Wrappers
  import opened Values
  import opened Args
  import opened Transforms
  import opened Builders
  import opened Group

  /** An `input` with the default parameters is named `data` and has the
      default validator. */
  lemma DefaultInput(title: Value, kind: Value)
    requires kind in InputKinds
    ensures var r := Input(title, kind, DefaultCommon, map[]);
            && r.Ok?
            && "name" in r.value.spec && r.value.spec["name"] == DefaultName
            && r.value.validator == AcceptAll
  {
    KeptNamed(InputNamed(title, kind, DefaultCommon), map[], "name");
  }

  /** Two members left unnamed both answer to `data`: the group keeps both
      specifications, but only the later member's transform survives, so a
      `number` member followed by a `text` one loses its `int()`
      conversion. */
  lemma UnnamedInputsCollide(title: Value, first: Value, second: Value)
    ensures var a := Input(first, Str(NUMBER), DefaultCommon, map[]);
            var b := Input(second, Str(TEXT), DefaultCommon, map[]);
            && a.Ok? && b.Ok?
            && var g := InputGroup(title, [a.value, b.value], None);
            && g.Ok?
            && |g.value.spec["inputs"].items| == 2
            && g.value.transforms == map[DefaultName := Identity]
  {
    DefaultInput(first, Str(NUMBER));
    DefaultInput(second, Str(TEXT));
    var a := Input(first, Str(NUMBER), DefaultCommon, map[]).value;
    var b := Input(second, Str(TEXT), DefaultCommon, map[]).value;
    assert KindHashable(a.spec) && KindHashable(b.spec);
    SharedDefaultName(title, a, b);
  }

  /** A group of two members both named `data`, the later one without a
      transform. */
  lemma SharedDefaultName(title: Value, a: Field, b: Field)
    requires NameOf(a) == Ok(DefaultName) && NameOf(b) == Ok(DefaultName)
    requires KindHashable(a.spec) && KindHashable(b.spec)
    requires b.transform == Identity
    ensures var g := InputGroup(title, [a, b], None);
            && g.Ok?
            && |g.value.spec["inputs"].items| == 2
            && g.value.transforms == map[DefaultName := Identity]
  {
    DuplicateNamesLaterWins(title, a, b, None);
    var g := InputGroup(title, [a, b], None).value;
    assert g.transforms.Keys == {DefaultName} && g.transforms[DefaultName] == Identity;
    assert g.transforms == map[DefaultName := Identity];
  }

  /** A `textarea` with the default six rows and no `code` option: the rows
      reach the specification, the unset `code` does not. */
  lemma DefaultTextarea(title: Value)
    ensures var f := Textarea(title, DefaultRows, None, None, None, DefaultCommon, map[]);
            && "rows" in f.spec && f.spec["rows"] == Int(6)
            && "code" !in f.spec && "maxlength" !in f.spec
            && "name" in f.spec && f.spec["name"] == DefaultName
            && f.validator == AcceptAll
  {
    var named := TextareaNamed(title, DefaultRows, None, None, None, DefaultCommon);
    DefaultTextareaNamed(title);
    KeptNamed(named, map[], "rows");
    KeptNamed(named, map[], "name");
    NoneDropped(named, map[], "code");
    NoneDropped(named, map[], "maxlength");
  }

  /** The keyword arguments of a default `textarea`. */
  lemma DefaultTextareaNamed(title: Value)
    ensures var named := TextareaNamed(title, DefaultRows, None, None, None, DefaultCommon);
            && "rows" in named && named["rows"] == Int(6)
            && "name" in named && named["name"] == DefaultName
            && "code" in named && named["code"].None?
            && "maxlength" in named && named["maxlength"].None?
            && named[ValidatorKey].None?
  {
  }

  /** A `file_upload` with the default placeholder and no `accept` filter:
      the placeholder reaches the specification, the unset filter does not,
      and the submission is decoded by `read_file`. */
  lemma DefaultFileUpload(title: Value)
    ensures var f := FileUpload(title, None, DefaultName, DefaultFilePlaceholder, None, map[]);
            && "placeholder" in f.spec && f.spec["placeholder"] == Str("Choose file")
            && "accept" !in f.spec && "help_text" !in f.spec
            && f.transform == ReadFile && f.validator == AcceptAll
  {
    var named := FileNamed(title, None, DefaultName, DefaultFilePlaceholder, None);
    KeptNamed(named, map[], "placeholder");
    NoneDropped(named, map[], "accept");
    NoneDropped(named, map[], "help_text");
  }
}
