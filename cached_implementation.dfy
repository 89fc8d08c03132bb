/** Decisions of the implementation header emitter (KnobService.py lines 401-706):
    which knobs get their own content validator and what it checks, and the knob
    descriptor table with its sentinel. */
module CachedImplementation {
  import opened Common
  import opened Schema
  import opened Dialect
  import opened EnumValidation
  import opened PublicHeader

  // ---------------------------------------------------------------------------
  // Constraint detection (lines 540-551)
  // ---------------------------------------------------------------------------

  /** A sub-knob that needs a run-time check: a leaf with an enum format, or with a
      bound that differs from its format's. */
  predicate Constrained(s: SubKnob)
  {
    s.leaf && (s.format.kind.EnumFormat? || s.min != s.format.min || s.max != s.format.max)
  }

  predicate HasConstraint(k: Knob)
  {
    exists i :: 0 <= i < |k.subknobs| && Constrained(k.subknobs[i])
  }

  /** The loop that raises `constraint_present`. */
  method DetectConstraint(k: Knob) returns (present: bool)
    ensures present <==> HasConstraint(k)
  {
    present := false;
    var i := 0;
    while i < |k.subknobs|
      invariant 0 <= i <= |k.subknobs|
      invariant present <==> exists j :: 0 <= j < i && Constrained(k.subknobs[j])
    {
      var s := k.subknobs[i];
      if s.leaf {
        if s.format.kind.EnumFormat? {
          present := true;
        } else {
          if s.min != s.format.min {
            present := true;
          }
          if s.max != s.format.max {
            present := true;
          }
        }
      }
      i := i + 1;
    }
  }

  // ---------------------------------------------------------------------------
  // Content validators (lines 523-604)
  // ---------------------------------------------------------------------------

  /** One `if (...) return false;` line of a content validator. */
  datatype Check =
    | EnumCheck(path: string, enumName: string)           // !ValidateEnumValue<enum>((*value)<path>)
    | MinCheck(path: string, define: string, bound: int)  // (*value)<path> < KNOB__<define>__MIN
    | MaxCheck(path: string, define: string, bound: int)  // (*value)<path> > KNOB__<define>__MAX

  /** The validator a knob's descriptor points to: the macro alias of the shared
      no-constraints validator, or a function of its own with these checks. */
  datatype ContentValidator = NoConstraints | Checks(checks: seq<Check>)

  /** `subknob.name[len(knob.name):]`: the access path below the knob's value. The
      sub-knob's name is the knob's name followed by the path; a sub-knob name shorter
      than the knob's gives Python's empty slice. */
  function PathOf(k: Knob, s: SubKnob): (p: string)
    ensures |p| == if |k.name| <= |s.name| then |s.name| - |k.name| else 0
    ensures forall i :: 0 <= i < |p| ==> p[i] == s.name[|k.name| + i]
    ensures |k.name| <= |s.name| && s.name[..|k.name|] == k.name ==> k.name + p == s.name
  {
    if |k.name| <= |s.name| then s.name[|k.name|..] else []
  }

  /** The checks of one sub-knob: enum leaves call their enum's validator; other
      leaves compare against the MIN/MAX define of each bound that differs from the
      format's. */
  function LeafChecks(k: Knob, s: SubKnob): seq<Check>
  {
    if !s.leaf then []
    else match s.format.kind
      case EnumFormat(name) => [EnumCheck(PathOf(k, s), name)]
      case ScalarFormat =>
        (if s.min != s.format.min then [MinCheck(PathOf(k, s), DefineName(s.name), s.min)] else [])
        + (if s.max != s.format.max then [MaxCheck(PathOf(k, s), DefineName(s.name), s.max)] else [])
  }

  function ContentChecks(k: Knob, subknobs: seq<SubKnob>): seq<Check>
  {
    if subknobs == [] then []
    else ContentChecks(k, subknobs[..|subknobs| - 1]) + LeafChecks(k, subknobs[|subknobs| - 1])
  }

  function ContentValidatorOf(k: Knob): ContentValidator
  {
    if HasConstraint(k) then Checks(ContentChecks(k, k.subknobs)) else NoConstraints
  }

  /** The content-validator emitter for one knob. */
  method BuildContentValidator(k: Knob) returns (v: ContentValidator)
    ensures v == ContentValidatorOf(k)
    ensures v.NoConstraints? <==> !HasConstraint(k)
  {
    var present := DetectConstraint(k);
    if !present {
      return NoConstraints;
    }
    var checks := [];
    var i := 0;
    while i < |k.subknobs|
      invariant 0 <= i <= |k.subknobs|
      invariant checks == ContentChecks(k, k.subknobs[..i])
    {
      var s := k.subknobs[i];
      assert k.subknobs[..i + 1][..i] == k.subknobs[..i];
      if s.leaf {
        var path := PathOf(k, s);
        var defineName := DefineName(s.name);
        if s.format.kind.EnumFormat? {
          checks := checks + [EnumCheck(path, s.format.kind.enumName)];
        } else {
          if s.min != s.format.min {
            checks := checks + [MinCheck(path, defineName, s.min)];
          }
          if s.max != s.format.max {
            checks := checks + [MaxCheck(path, defineName, s.max)];
          }
        }
      }
      i := i + 1;
    }
    assert k.subknobs[..i] == k.subknobs;
    v := Checks(checks);
  }

  // ---------------------------------------------------------------------------
  // What a content validator returns
  // ---------------------------------------------------------------------------

  /** A knob's value buffer, seen through its leaf access paths. */
  type Buffer = string -> int

  /** What the generated `ValidateEnumValue<name>` returns for `x`. An enum the
      schema does not declare, or one without members, has no validator; the
      reference then fails and the check is taken as failing. */
  predicate EnumValidatorAccepts(enums: seq<EnumDef>, name: string, x: int)
  {
    match FindEnum(enums, name)
    case None => false
    case Some(e) => ValidatorOf(e).Some? && Accepts(ValidatorOf(e).value, x)
  }

  predicate Passes(c: Check, buf: Buffer, enums: seq<EnumDef>)
  {
    match c
    case EnumCheck(path, name) => EnumValidatorAccepts(enums, name, buf(path))
    case MinCheck(path, _, bound) => buf(path) >= bound
    case MaxCheck(path, _, bound) => buf(path) <= bound
  }

  predicate AllPass(cs: seq<Check>, buf: Buffer, enums: seq<EnumDef>)
  {
    forall i :: 0 <= i < |cs| ==> Passes(cs[i], buf, enums)
  }

  lemma AllPassConcat(a: seq<Check>, b: seq<Check>, buf: Buffer, enums: seq<EnumDef>)
    ensures AllPass(a + b, buf, enums) <==> AllPass(a, buf, enums) && AllPass(b, buf, enums)
  {
    assert forall i :: 0 <= i < |a| ==> (a + b)[i] == a[i];
    assert forall i :: 0 <= i < |b| ==> (a + b)[|a| + i] == b[i];
  }

  /** The validator returns true iff no check returns false first. */
  predicate ContentAccepts(v: ContentValidator, buf: Buffer, enums: seq<EnumDef>)
  {
    match v
    case NoConstraints => true
    case Checks(cs) => AllPass(cs, buf, enums)
  }

  /** What the schema asks of a leaf: an enum leaf holds a declared member, another
      leaf lies within its own bounds. */
  predicate LeafValid(k: Knob, s: SubKnob, buf: Buffer, enums: seq<EnumDef>)
  {
    !s.leaf ||
    match s.format.kind
    case EnumFormat(name) => FindEnum(enums, name).Some? && buf(PathOf(k, s)) in Numbers(FindEnum(enums, name).value)
    case ScalarFormat => s.min <= buf(PathOf(k, s)) <= s.max
  }

  /** A scalar leaf holds a value of its C type, so it lies within its format's bounds. */
  predicate InNaturalRange(k: Knob, s: SubKnob, buf: Buffer)
  {
    !s.leaf || s.format.kind.EnumFormat? || s.format.min <= buf(PathOf(k, s)) <= s.format.max
  }

  lemma EnumCheckExact(enums: seq<EnumDef>, name: string, x: int)
    ensures EnumValidatorAccepts(enums, name, x) <==>
      FindEnum(enums, name).Some? && x in Numbers(FindEnum(enums, name).value)
  {
    match FindEnum(enums, name)
    case None =>
    case Some(e) =>
      if e.values != [] {
        ValidatorAcceptsExactlyDeclared(e, x);
      }
  }

  lemma LeafChecksExact(k: Knob, s: SubKnob, buf: Buffer, enums: seq<EnumDef>)
    requires InNaturalRange(k, s, buf)
    ensures AllPass(LeafChecks(k, s), buf, enums) <==> LeafValid(k, s, buf, enums)
  {
    if s.leaf && s.format.kind.EnumFormat? {
      EnumCheckExact(enums, s.format.kind.enumName, buf(PathOf(k, s)));
      assert LeafChecks(k, s)[0] == EnumCheck(PathOf(k, s), s.format.kind.enumName);
    } else if s.leaf {
      var cs := LeafChecks(k, s);
      var x := buf(PathOf(k, s));
      if s.min != s.format.min {
        assert cs[0] == MinCheck(PathOf(k, s), DefineName(s.name), s.min);
      }
      if s.max != s.format.max {
        assert cs[|cs| - 1] == MaxCheck(PathOf(k, s), DefineName(s.name), s.max);
      }
    }
  }

  lemma {:induction false} ChecksPassExactly(k: Knob, subknobs: seq<SubKnob>, buf: Buffer, enums: seq<EnumDef>)
    requires forall i :: 0 <= i < |subknobs| ==> InNaturalRange(k, subknobs[i], buf)
    ensures AllPass(ContentChecks(k, subknobs), buf, enums)
      <==> forall i :: 0 <= i < |subknobs| ==> LeafValid(k, subknobs[i], buf, enums)
  {
    if subknobs != [] {
      var n := |subknobs| - 1;
      var init := subknobs[..n];
      assert forall i :: 0 <= i < n ==> init[i] == subknobs[i];
      ChecksPassExactly(k, init, buf, enums);
      LeafChecksExact(k, subknobs[n], buf, enums);
      AllPassConcat(ContentChecks(k, init), LeafChecks(k, subknobs[n]), buf, enums);
    }
  }

  /** For a buffer whose scalar leaves hold values of their C types, the knob's
      validator accepts exactly when every enum leaf holds a declared member and
      every other leaf lies within its own bounds. */
  lemma ContentValidatorExact(k: Knob, buf: Buffer, enums: seq<EnumDef>)
    requires forall i :: 0 <= i < |k.subknobs| ==> InNaturalRange(k, k.subknobs[i], buf)
    ensures ContentAccepts(ContentValidatorOf(k), buf, enums) <==>
      forall i :: 0 <= i < |k.subknobs| ==> LeafValid(k, k.subknobs[i], buf, enums)
  {
    if HasConstraint(k) {
      ChecksPassExactly(k, k.subknobs, buf, enums);
    } else {
      forall i | 0 <= i < |k.subknobs| ensures LeafValid(k, k.subknobs[i], buf, enums) {
        assert !Constrained(k.subknobs[i]);
      }
    }
  }

  /** A MIN or MAX check compares against a define of the list, with its value. */
  predicate DeclaredBy(c: Check, defines: seq<BoundDefine>)
  {
    && (c.MinCheck? ==> BoundDefine(c.define, Min, c.bound) in defines)
    && (c.MaxCheck? ==> BoundDefine(c.define, Max, c.bound) in defines)
  }

  lemma LeafChecksDeclared(k: Knob, s: SubKnob, j: nat)
    requires j < |LeafChecks(k, s)|
    ensures DeclaredBy(LeafChecks(k, s)[j], LeafDefines(s))
  {
    var c := LeafChecks(k, s)[j];
    if c.MinCheck? {
      assert LeafDefines(s)[0] == BoundDefine(c.define, Min, c.bound);
    }
    if c.MaxCheck? {
      assert LeafDefines(s)[|LeafDefines(s)| - 1] == BoundDefine(c.define, Max, c.bound);
    }
  }

  /** Every MIN/MAX define a content validator compares against is one the public
      header defines, with the same value. */
  lemma {:induction false} ChecksUseDeclaredDefines(k: Knob, subknobs: seq<SubKnob>, i: nat)
    requires i < |ContentChecks(k, subknobs)|
    ensures DeclaredBy(ContentChecks(k, subknobs)[i], BoundDefines(subknobs))
  {
    var n := |subknobs| - 1;
    var init, last := subknobs[..n], subknobs[n];
    var a, b := ContentChecks(k, init), LeafChecks(k, last);
    var da, db := BoundDefines(init), LeafDefines(last);
    assert ContentChecks(k, subknobs) == a + b;
    assert BoundDefines(subknobs) == da + db;
    var c := (a + b)[i];
    if i < |a| {
      ChecksUseDeclaredDefines(k, init, i);
      assert c == a[i];
    } else {
      LeafChecksDeclared(k, last, i - |a|);
      assert c == b[i - |a|];
    }
    assert forall d :: d in da ==> d in da + db;
    assert forall d :: d in db ==> d in da + db;
  }

  /** For a knob without enum leaves, a validator of its own is emitted exactly when
      the public header emits a MIN or MAX define for it. */
  lemma {:induction false} ConstraintMatchesDefines(k: Knob, subknobs: seq<SubKnob>)
    requires forall i :: 0 <= i < |subknobs| ==> subknobs[i].format.kind.ScalarFormat?
    ensures (exists i :: 0 <= i < |subknobs| && Constrained(subknobs[i])) <==> BoundDefines(subknobs) != []
  {
    if subknobs != [] {
      var init, last := subknobs[..|subknobs| - 1], subknobs[|subknobs| - 1];
      assert forall i :: 0 <= i < |init| ==> init[i] == subknobs[i];
      ConstraintMatchesDefines(k, init);
      assert Constrained(last) <==> LeafDefines(last) != [];
      if exists i :: 0 <= i < |subknobs| && Constrained(subknobs[i]) {
        var i :| 0 <= i < |subknobs| && Constrained(subknobs[i]);
        if i < |init| { assert Constrained(init[i]); }
      }
    }
  }

  /** A scalar knob that is its own single leaf, with only its maximum narrowed (a
      `uint16_t` power limit capped at 300, say): the header defines its MAX, and
      the validator compares the whole value against that define and accepts
      exactly the values up to the cap. */
  lemma NarrowedMaxOnly(k: Knob, cap: int, buf: Buffer, enums: seq<EnumDef>)
    requires k.format.kind.ScalarFormat? && cap != k.format.max
    requires k.subknobs == [SubKnob(k.name, true, k.format, k.format.min, cap)]
    ensures BoundDefines(k.subknobs) == [BoundDefine(DefineName(k.name), Max, cap)]
    ensures ContentValidatorOf(k) == Checks([MaxCheck("", DefineName(k.name), cap)])
    ensures ContentAccepts(ContentValidatorOf(k), buf, enums) <==> buf("") <= cap
  {
    var s := k.subknobs[0];
    assert k.subknobs[..0] == [];
    assert PathOf(k, s) == [];
    assert Constrained(k.subknobs[0]);
    assert ContentChecks(k, k.subknobs) == LeafChecks(k, s);
    var c := MaxCheck("", DefineName(k.name), cap);
    assert AllPass([c], buf, enums) <==> Passes(c, buf, enums) by {
      assert [c][0] == c;
    }
  }

  // ---------------------------------------------------------------------------
  // The descriptor table (lines 607-654)
  // ---------------------------------------------------------------------------

  /** One entry of the `knob_data_t` table. Addresses are given by the knob whose
      slot they name (`&gKnobDefaultValues.<knob>`, `CONFIG_CACHE_ADDRESS(<knob>)`,
      `&ValidateKnobContent<knob>`); `None` is NULL. `valueType` is the type whose
      `sizeof` is the value size (`None`: 0). */
  datatype Descriptor = Descriptor(
    knob: KnobId,
    defaultValue: Option<string>,
    cacheValue: Option<string>,
    valueType: Option<string>,
    name: Option<string>,
    nameSize: nat,
    namespace: Option<string>,
    attributes: nat,
    getCount: nat,
    setCount: nat,
    validator: Option<string>)

  /** The closing entry: `KNOB_MAX`, NULL pointers, zero sizes, zero namespace. */
  const SentinelDescriptor := Descriptor(KnobMax, None, None, None, None, 0, None, 0, 0, 0, None)

  predicate EndsDescriptors(d: Descriptor) { d.knob == KnobMax }

  /** The variable attributes every knob is stored with. */
  const KnobAttributes: nat := 7

  predicate Describes(d: Descriptor, k: Knob, i: nat, uefi: bool)
  {
    && d.knob == KnobIndex(i)
    && d.defaultValue == Some(k.name)
    && d.cacheValue == Some(k.name)
    && d.valueType == Some(TypeString(k.format.cType, uefi))
    && d.name == Some(k.name)
    && d.nameSize == |k.name| + 1
    && d.namespace == Some(k.namespace)
    && d.attributes == KnobAttributes
    && d.getCount == 0 && d.setCount == 0
    && d.validator == Some(k.name)
  }

  /** The table has one entry per knob in schema order and then the sentinel, so it
      is indexed by `knob_t` and a walk to the first `KNOB_MAX` visits every knob. */
  predicate IsDescriptorTable(table: seq<Descriptor>, knobs: seq<Knob>, uefi: bool)
  {
    && |table| == |knobs| + 1
    && table[|knobs|] == SentinelDescriptor
    && (forall i :: 0 <= i < |knobs| ==> Describes(table[i], knobs[i], i, uefi))
  }

  lemma DescriptorTableIndexedByKnob(table: seq<Descriptor>, knobs: seq<Knob>, uefi: bool)
    requires IsDescriptorTable(table, knobs, uefi)
    ensures forall i :: 0 <= i < |table| ==> Ordinal(table[i].knob, |knobs|) == i
    ensures WalkLength(table, EndsDescriptors) == |knobs|
  {
    forall i | 0 <= i < |knobs| ensures table[i].knob == KnobIndex(i) {
      assert Describes(table[i], knobs[i], i, uefi);
    }
    WalkStopsAtFirstEnd(table, EndsDescriptors, |knobs|);
  }

  method DescriptorTable(knobs: seq<Knob>, uefi: bool) returns (table: seq<Descriptor>)
    ensures IsDescriptorTable(table, knobs, uefi)
    ensures forall i :: 0 <= i < |table| ==> Ordinal(table[i].knob, |knobs|) == i
    ensures WalkLength(table, EndsDescriptors) == |knobs|
  {
    table := [];
    var i := 0;
    while i < |knobs|
      invariant 0 <= i <= |knobs|
      invariant |table| == i
      invariant forall j :: 0 <= j < i ==> Describes(table[j], knobs[j], j, uefi)
    {
      var k := knobs[i];
      table := table + [Descriptor(
        KnobIndex(i), Some(k.name), Some(k.name), Some(TypeString(k.format.cType, uefi)),
        Some(k.name), |k.name| + 1, Some(k.namespace), KnobAttributes, 0, 0, Some(k.name))];
      i := i + 1;
    }
    table := table + [SentinelDescriptor];
    DescriptorTableIndexedByKnob(table, knobs, uefi);
  }

  // ---------------------------------------------------------------------------
  // generate_cached_implementation
  // ---------------------------------------------------------------------------

  /** What the implementation header defines, abstracted from its text. */
  datatype Implementation = Implementation(
    enumValidators: seq<Validator>,
    contentValidators: seq<ContentValidator>,
    descriptors: seq<Descriptor>)

  /** The validators of all enums, in schema order; `None` at the first enum
      without members. */
  method EnumValidators(enums: seq<EnumDef>) returns (r: Option<seq<Validator>>)
    ensures r.None? <==> exists i :: 0 <= i < |enums| && enums[i].values == []
    ensures r.Some? ==> |r.value| == |enums| && forall i :: 0 <= i < |enums| ==> ValidatorOf(enums[i]) == Some(r.value[i])
  {
    var validators := [];
    var i := 0;
    while i < |enums|
      invariant 0 <= i <= |enums|
      invariant |validators| == i
      invariant forall j :: 0 <= j < i ==> ValidatorOf(enums[j]) == Some(validators[j])
    {
      var v := BuildEnumValidator(enums[i]);
      if v.None? {
        return None;
      }
      validators := validators + [v.value];
      i := i + 1;
    }
    r := Some(validators);
  }

  /** The content validator of every knob, in schema order. */
  method ContentValidators(knobs: seq<Knob>) returns (r: seq<ContentValidator>)
    ensures |r| == |knobs|
    ensures forall i :: 0 <= i < |knobs| ==> r[i] == ContentValidatorOf(knobs[i])
  {
    r := [];
    var i := 0;
    while i < |knobs|
      invariant 0 <= i <= |knobs|
      invariant |r| == i
      invariant forall j :: 0 <= j < i ==> r[j] == ContentValidatorOf(knobs[j])
    {
      var v := BuildContentValidator(knobs[i]);
      r := r + [v];
      i := i + 1;
    }
  }

  /** The whole emitter. `None`: an enum without members made it raise. */
  method GenerateCachedImplementation(schema: SchemaDef, uefi: bool) returns (r: Option<Implementation>)
    ensures r.None? <==> exists i :: 0 <= i < |schema.enums| && schema.enums[i].values == []
    ensures r.Some? ==>
      && |r.value.enumValidators| == |schema.enums|
      && (forall i, x :: 0 <= i < |schema.enums| ==>
            (Accepts(r.value.enumValidators[i], x) <==> x in Numbers(schema.enums[i])))
      && |r.value.contentValidators| == |schema.knobs|
      && (forall i :: 0 <= i < |schema.knobs| ==>
            (r.value.contentValidators[i].NoConstraints? <==> !HasConstraint(schema.knobs[i])))
      && (forall i :: 0 <= i < |schema.knobs| ==> r.value.contentValidators[i] == ContentValidatorOf(schema.knobs[i]))
      && IsDescriptorTable(r.value.descriptors, schema.knobs, uefi)
  {
    var enumValidators := EnumValidators(schema.enums);
    if enumValidators.None? {
      return None;
    }
    var vs := enumValidators.value;
    forall i, x | 0 <= i < |schema.enums| ensures Accepts(vs[i], x) <==> x in Numbers(schema.enums[i]) {
      ValidatorAcceptsExactlyDeclared(schema.enums[i], x);
    }
    var contentValidators := ContentValidators(schema.knobs);
    var descriptors := DescriptorTable(schema.knobs, uefi);
    r := Some(Implementation(vs, contentValidators, descriptors));
  }
}
