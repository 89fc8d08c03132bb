/** The parsed schema the generator consumes. The parser itself is not part of this
    model: these are the attributes the generator reads from its objects. */
module Schema {
  import opened Common

  datatype EnumValue = EnumValue(name: string, number: int, help: string)

  datatype EnumDef = EnumDef(name: string, help: string, values: seq<EnumValue>)

  /** Whether a value format is an enum format (`isinstance(..., EnumFormat)`). */
  datatype FormatKind = ScalarFormat | EnumFormat(enumName: string)

  /** A value format: its C type name and its natural bounds. */
  datatype Format = Format(kind: FormatKind, cType: string, min: int, max: int)

  /** An addressable path inside a knob's value (`knob.sub.field[2]`); a leaf carries
      its own effective bounds, which may be narrower than its format's. */
  datatype SubKnob = SubKnob(name: string, leaf: bool, format: Format, min: int, max: int)

  /** A knob. `defaultValue` is the literal its format renders for the default. */
  datatype Knob = Knob(
    name: string,
    help: string,
    namespace: string,
    format: Format,
    defaultValue: string,
    subknobs: seq<SubKnob>)

  datatype SchemaDef = SchemaDef(path: string, enums: seq<EnumDef>, knobs: seq<Knob>)

  /** The declared numbers of an enum, in declaration order. */
  function Numbers(e: EnumDef): (nums: seq<int>)
    ensures |nums| == |e.values|
    ensures forall i :: 0 <= i < |nums| ==> nums[i] == e.values[i].number
  {
    seq(|e.values|, i requires 0 <= i < |e.values| => e.values[i].number)
  }

  /** The first enum of the schema with the given name. */
  function FindEnum(enums: seq<EnumDef>, name: string): (r: Option<EnumDef>)
    ensures r.Some? ==> r.value in enums && r.value.name == name
    ensures r.None? ==> forall i :: 0 <= i < |enums| ==> enums[i].name != name
  {
    if enums == [] then None
    else if enums[0].name == name then Some(enums[0])
    else FindEnum(enums[1..], name)
  }
}
