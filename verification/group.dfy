/** The spec-assembly part of `input_group`: the members' specifications,
    transforms and validators are collected in declaration order, the first
    text-like member is given the auto-focus flag unless some member already
    carries one, and the specifications are wrapped as one form. */
module Group {
  import opened Wrappers
  import opened Values
  import opened Args
  import opened Transforms
  import opened Builders

  const AutoFocusKey: string := "auto_focus"

  /** The kinds the default auto-focus may land on. */
  const TextLikeKinds: set<Value> := {Str(TEXT), Str(NUMBER), Str(PASSWORD), Str(SELECT)}

  /** A specification is text-like when its `type` is one of those kinds; one
      without a `type` is not. */
  predicate TextLike(spec: Spec) {
    "type" in spec && spec["type"] in TextLikeKinds
  }

  /** Whether some specification has an `auto_focus` key, whatever its value. */
  predicate AnyAutoFocus(specs: seq<Spec>) {
    exists i | 0 <= i < |specs| :: AutoFocusKey in specs[i]
  }

  /** The position of the first text-like specification, `|specs|` when
      there is none. */
  function FirstTextLike(specs: seq<Spec>): (j: nat)
    ensures j <= |specs|
    ensures forall i | 0 <= i < j :: !TextLike(specs[i])
    ensures j < |specs| ==> TextLike(specs[j])
    decreases |specs|
  {
    if |specs| == 0 || TextLike(specs[0]) then 0 else 1 + FirstTextLike(specs[1..])
  }

  function Focused(spec: Spec): Spec {
    spec[AutoFocusKey := Bool(true)]
  }

  /** The kind of a specification can be looked up in a set: `type` is
      absent (the lookup sees `None`) or hashable. */
  predicate KindHashable(spec: Spec) {
    "type" !in spec || Hashable(spec["type"])
  }

  /** Every specification the scan inspects before it reaches the first
      text-like one has a kind that can be looked up. */
  predicate ScanHashable(specs: seq<Spec>) {
    forall i | 0 <= i < FirstTextLike(specs) :: KindHashable(specs[i])
  }

  /** The scan of the auto-focus loop: the first text-like specification
      gets `auto_focus = True` and the loop stops; an unhashable kind met
      on the way fails the set lookup with a `TypeError`. */
  function FocusFirst(specs: seq<Spec>): (r: Result<seq<Spec>>)
    ensures r.Ok? <==> ScanHashable(specs)
    ensures r.Err? ==> r.error.TypeError?
    ensures r.Ok? ==> |r.value| == |specs|
    ensures r.Ok? ==> forall i | 0 <= i < |specs| ::
              r.value[i] == if i == FirstTextLike(specs) then Focused(specs[i]) else specs[i]
    decreases |specs|
  {
    if |specs| == 0 then Ok([])
    else if !KindHashable(specs[0]) then Err(TypeError("unhashable type"))
    else if TextLike(specs[0]) then Ok([Focused(specs[0])] + specs[1..])
    else
      ScanHashableCons(specs);
      var rest :- FocusFirst(specs[1..]);
      Ok([specs[0]] + rest)
  }

  /** Past a specification that is not text-like, the scan goes on with the
      rest. */
  lemma ScanHashableCons(specs: seq<Spec>)
    requires |specs| > 0 && !TextLike(specs[0])
    ensures FirstTextLike(specs) == 1 + FirstTextLike(specs[1..])
    ensures ScanHashable(specs) <==> KindHashable(specs[0]) && ScanHashable(specs[1..])
  {
    var j := FirstTextLike(specs[1..]);
    assert forall i | 1 <= i < 1 + j :: specs[i] == specs[1..][i - 1];
  }

  /** The default auto-focus rule: when no specification has an
      `auto_focus` key, exactly the first text-like one is flagged and every
      other one is left as it was; otherwise nothing changes. */
  function AutoFocus(specs: seq<Spec>): (r: Result<seq<Spec>>)
    ensures r.Ok? <==> AnyAutoFocus(specs) || ScanHashable(specs)
    ensures r.Err? ==> r.error.TypeError?
    ensures AnyAutoFocus(specs) ==> r == Ok(specs)
    ensures r.Ok? && !AnyAutoFocus(specs) ==>
              && |r.value| == |specs|
              && forall i | 0 <= i < |specs| ::
                   r.value[i] == if i == FirstTextLike(specs) then Focused(specs[i]) else specs[i]
  {
    if AnyAutoFocus(specs) then Ok(specs) else FocusFirst(specs)
  }

  /** With no text-like specification the rule changes nothing, and it
      succeeds whenever every kind can be looked up. */
  lemma AutoFocusNoTextLike(specs: seq<Spec>)
    requires forall i | 0 <= i < |specs| :: !TextLike(specs[i])
    ensures AutoFocus(specs).Ok? ==> AutoFocus(specs).value == specs
    ensures (forall i | 0 <= i < |specs| :: KindHashable(specs[i])) ==> AutoFocus(specs) == Ok(specs)
  {
    assert FirstTextLike(specs) == |specs|;
  }

  /** When every kind can be looked up the rule succeeds; the builders
      always set a string kind, so groups of their fields never fail here. */
  lemma AutoFocusHashable(specs: seq<Spec>)
    requires forall i | 0 <= i < |specs| :: KindHashable(specs[i])
    ensures AutoFocus(specs).Ok?
  {
  }

  /** After the default rule exactly one specification carries the flag when
      some specification is text-like, and none otherwise. */
  lemma AutoFocusExactlyOne(specs: seq<Spec>)
    requires !AnyAutoFocus(specs)
    ensures var r := AutoFocus(specs);
            r.Ok? ==>
              forall i | 0 <= i < |r.value| ::
                AutoFocusKey in r.value[i] <==> TextLike(specs[i]) && forall h | 0 <= h < i :: !TextLike(specs[h])
  {
    var r := AutoFocus(specs);
    if r.Ok? {
      var j := FirstTextLike(specs);
      forall i | 0 <= i < |r.value|
        ensures AutoFocusKey in r.value[i] <==> TextLike(specs[i]) && forall h | 0 <= h < i :: !TextLike(specs[h])
      {
        assert AutoFocusKey !in specs[i];
        if i > j && j < |specs| {
          assert !(forall h | 0 <= h < i :: !TextLike(specs[h])) by { assert TextLike(specs[j]); }
        }
      }
    }
  }

  /** Applying the rule to its own result changes nothing. */
  lemma AutoFocusIdempotent(specs: seq<Spec>)
    ensures AutoFocus(specs).Ok? ==> AutoFocus(AutoFocus(specs).value) == AutoFocus(specs)
  {
    var r := AutoFocus(specs);
    var j := FirstTextLike(specs);
    if r.Ok? && !AnyAutoFocus(specs) {
      if j < |specs| {
        assert AutoFocusKey in r.value[j];
      } else {
        assert r.value == specs;
      }
    }
  }

  // ---- collection --------------------------------------------------------

  /** `item_spec['name']`, which must exist and be usable as a key. */
  function NameOf(f: Field): (r: Result<Value>)
    ensures r.Ok? <==> "name" in f.spec && Hashable(f.spec["name"])
    ensures r.Ok? ==> r.value == f.spec["name"]
    ensures "name" !in f.spec ==> r == Err(KeyError("name"))
    ensures "name" in f.spec && !Hashable(f.spec["name"]) ==> r.Err? && r.error.TypeError?
  {
    if "name" !in f.spec then Err(KeyError("name"))
    else if !Hashable(f.spec["name"]) then Err(TypeError("unhashable type"))
    else Ok(f.spec["name"])
  }

  function Specs(fields: seq<Field>): (r: seq<Spec>)
    ensures |r| == |fields| && forall i | 0 <= i < |fields| :: r[i] == fields[i].spec
  {
    seq(|fields|, i requires 0 <= i < |fields| => fields[i].spec)
  }

  datatype Collected = Collected(specs: seq<Spec>, transforms: map<Value, Transform>, validators: map<Value, Validator>)

  /** `i` is the last member named `k`. */
  ghost predicate LastNamed(fields: seq<Field>, i: int, k: Value) {
    && 0 <= i < |fields|
    && NameOf(fields[i]) == Ok(k)
    && forall j | i < j < |fields| :: NameOf(fields[j]) != Ok(k)
  }

  /** The collection loop: specifications in declaration order, and the
      transform and validator maps keyed by name. The first member without a
      usable name aborts it. */
  function Collect(fields: seq<Field>): (r: Result<Collected>)
    ensures r.Ok? <==> forall i | 0 <= i < |fields| :: NameOf(fields[i]).Ok?
    ensures r.Ok? ==> r.value.specs == Specs(fields)
    decreases |fields|
  {
    if |fields| == 0 then Ok(Collected([], map[], map[]))
    else
      var init := fields[..|fields| - 1];
      var c :- Collect(init);
      var f := fields[|fields| - 1];
      var n :- NameOf(f);
      assert fields == init + [f];
      Ok(Collected(c.specs + [f.spec], c.transforms[n := f.transform], c.validators[n := f.validator]))
  }

  /** The loop stops at the first member without a usable name and reports
      that member's error. */
  lemma {:induction false} CollectError(fields: seq<Field>)
    requires Collect(fields).Err?
    ensures exists i | 0 <= i < |fields| ::
              && NameOf(fields[i]).Err?
              && Collect(fields).error == NameOf(fields[i]).error
              && forall j | 0 <= j < i :: NameOf(fields[j]).Ok?
    decreases |fields|
  {
    var init := fields[..|fields| - 1];
    if Collect(init).Err? {
      CollectError(init);
      var i :| 0 <= i < |init| && NameOf(init[i]).Err? && Collect(init).error == NameOf(init[i]).error
               && forall j | 0 <= j < i :: NameOf(init[j]).Ok?;
      assert fields[i] == init[i];
      assert forall j | 0 <= j < i :: fields[j] == init[j];
    } else {
      var i := |fields| - 1;
      assert forall j | 0 <= j < i :: fields[j] == init[j];
    }
  }

  /** Both maps are keyed by exactly the members' names. */
  lemma {:induction false} CollectKeys(fields: seq<Field>)
    requires Collect(fields).Ok?
    ensures var c := Collect(fields).value;
            && c.validators.Keys == c.transforms.Keys
            && forall k :: k in c.transforms <==> exists i | 0 <= i < |fields| :: NameOf(fields[i]) == Ok(k)
    decreases |fields|
  {
    if |fields| > 0 {
      var init := fields[..|fields| - 1];
      CollectKeys(init);
      assert forall i | 0 <= i < |init| :: init[i] == fields[i];
    }
  }

  /** Where names repeat, the last member of a name supplies its transform
      and validator. */
  lemma {:induction false} CollectLastWins(fields: seq<Field>, i: int, k: Value)
    requires Collect(fields).Ok? && LastNamed(fields, i, k)
    ensures var c := Collect(fields).value;
            && k in c.transforms && k in c.validators
            && c.transforms[k] == fields[i].transform
            && c.validators[k] == fields[i].validator
    decreases |fields|
  {
    var init := fields[..|fields| - 1];
    if i < |init| {
      assert init[i] == fields[i];
      assert forall j | i < j < |init| :: init[j] == fields[j];
      assert LastNamed(init, i, k);
      CollectLastWins(init, i, k);
    }
  }

  // ---- input_group -------------------------------------------------------

  /** What `input_group` hands to the suspension machinery: the form
      specification `{label, inputs}`, the per-name transforms and
      validators, and the whole-form validator as given. */
  datatype Form = Form(spec: Spec, transforms: map<Value, Transform>, validators: map<Value, Validator>,
                       formValidator: Value)

  /** `input_group`: the members are collected first, then the auto-focus
      rule runs over their specifications. */
  function InputGroup(title: Value, fields: seq<Field>, validFunc: Value): (r: Result<Form>)
    ensures r.Ok? <==> (forall i | 0 <= i < |fields| :: NameOf(fields[i]).Ok?) && AutoFocus(Specs(fields)).Ok?
    ensures r.Ok? ==> r.value.spec.Keys == {"label", "inputs"} && r.value.spec["label"] == title
    ensures r.Ok? ==> r.value.spec["inputs"] == List(AsDicts(AutoFocus(Specs(fields)).value))
    ensures r.Ok? ==> r.value.formValidator == validFunc
  {
    var c :- Collect(fields);
    var specs :- AutoFocus(c.specs);
    Ok(Form(map["label" := title, "inputs" := List(AsDicts(specs))], c.transforms, c.validators, validFunc))
  }

  /** A group fails with the error of its first member that lacks a usable
      name; when every name is usable, it fails only with the `TypeError` of
      an unhashable kind met by the auto-focus scan. */
  lemma InputGroupError(title: Value, fields: seq<Field>, validFunc: Value)
    requires InputGroup(title, fields, validFunc).Err?
    ensures !(forall i | 0 <= i < |fields| :: NameOf(fields[i]).Ok?) ==>
              exists i | 0 <= i < |fields| ::
                && NameOf(fields[i]).Err?
                && InputGroup(title, fields, validFunc).error == NameOf(fields[i]).error
                && forall j | 0 <= j < i :: NameOf(fields[j]).Ok?
    ensures (forall i | 0 <= i < |fields| :: NameOf(fields[i]).Ok?) ==>
              && InputGroup(title, fields, validFunc).error.TypeError?
              && !AnyAutoFocus(Specs(fields)) && !ScanHashable(Specs(fields))
  {
    if Collect(fields).Err? {
      CollectError(fields);
    }
  }

  /** Members whose names are usable and whose kinds can be looked up, as
      every builder's are, always make a group. */
  lemma InputGroupOk(title: Value, fields: seq<Field>, validFunc: Value)
    requires forall i | 0 <= i < |fields| :: NameOf(fields[i]).Ok? && KindHashable(fields[i].spec)
    ensures InputGroup(title, fields, validFunc).Ok?
  {
    AutoFocusHashable(Specs(fields));
  }

  /** The form's transform and validator maps are keyed by the members'
      names, and a repeated name takes the last member's entries. */
  lemma InputGroupMaps(title: Value, fields: seq<Field>, validFunc: Value)
    requires InputGroup(title, fields, validFunc).Ok?
    ensures var g := InputGroup(title, fields, validFunc).value;
            && g.validators.Keys == g.transforms.Keys
            && (forall k :: k in g.transforms <==> exists i | 0 <= i < |fields| :: NameOf(fields[i]) == Ok(k))
            && forall i, k | LastNamed(fields, i, k) ::
                 g.transforms[k] == fields[i].transform && g.validators[k] == fields[i].validator
  {
    CollectKeys(fields);
    forall i, k | LastNamed(fields, i, k)
      ensures Collect(fields).value.transforms[k] == fields[i].transform
      ensures Collect(fields).value.validators[k] == fields[i].validator
    {
      CollectLastWins(fields, i, k);
    }
  }

  /** Two members with the same name both stay in `inputs`, but the later
      one's transform and validator replace the earlier one's. */
  lemma DuplicateNamesLaterWins(title: Value, a: Field, b: Field, validFunc: Value)
    requires NameOf(a).Ok? && NameOf(b) == NameOf(a)
    requires KindHashable(a.spec) && KindHashable(b.spec)
    ensures var r := InputGroup(title, [a, b], validFunc);
            && r.Ok?
            && r.value.spec["inputs"].List?
            && |r.value.spec["inputs"].items| == 2
            && r.value.transforms.Keys == {NameOf(a).value}
            && r.value.transforms[NameOf(a).value] == b.transform
            && r.value.validators[NameOf(a).value] == b.validator
  {
    var k := NameOf(a).value;
    var c0 := Collect([]);
    assert c0 == Ok(Collected([], map[], map[]));
    var one := [a, b][..1];
    assert one == [a] && one[..0] == [];
    var c1 := Collect(one);
    assert [] + [a.spec] == [a.spec];
    assert map[][k := a.transform] == map[k := a.transform];
    assert map[][k := a.validator] == map[k := a.validator];
    assert c1 == Ok(Collected([a.spec], map[k := a.transform], map[k := a.validator]));
    var c2 := Collect([a, b]);
    assert c2.value.transforms == map[k := b.transform];
    assert c2.value.validators == map[k := b.validator];
    AutoFocusHashable([a.spec, b.spec]);
  }

  /** With members of kinds checkbox, number and text and no flag set, the
      number member is the one focused. */
  lemma AutoFocusSkipsCheckbox(s0: Spec, s1: Spec, s2: Spec)
    requires "type" in s0 && s0["type"] == Str(CHECKBOX)
    requires "type" in s1 && s1["type"] == Str(NUMBER)
    requires "type" in s2 && s2["type"] == Str(TEXT)
    requires AutoFocusKey !in s0 && AutoFocusKey !in s1 && AutoFocusKey !in s2
    ensures AutoFocus([s0, s1, s2]) == Ok([s0, Focused(s1), s2])
  {
    var specs := [s0, s1, s2];
    assert !TextLike(s0) && TextLike(s1) && KindHashable(s0);
    assert FirstTextLike(specs) == 1 by {
      assert FirstTextLike(specs[1..]) == 0;
    }
    assert ScanHashable(specs);
    assert !AnyAutoFocus(specs);
    var r := AutoFocus(specs).value;
    assert r[0] == s0 && r[1] == Focused(s1) && r[2] == s2;
    assert r == [s0, Focused(s1), s2];
  }

  /** A list-valued kind ahead of a text member: the scan's set lookup
      fails before it reaches the text member. */
  lemma UnhashableKindBeforeText()
    ensures AutoFocus([map["type" := List([])], map["type" := Str(TEXT)]]).Err?
  {
    var specs: seq<Spec> := [map["type" := List([])], map["type" := Str(TEXT)]];
    assert !TextLike(specs[0]) && TextLike(specs[1]) && !KindHashable(specs[0]);
    assert FirstTextLike(specs) == 1 by {
      assert FirstTextLike(specs[1..]) == 0;
    }
    assert !AnyAutoFocus(specs);
  }
}
