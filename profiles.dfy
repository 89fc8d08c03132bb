/** Profile merging of the profile header emitter (KnobService.py lines 709-836).
    For each profile every knob's value is reset, the profile's overrides are
    applied, and the overridden knobs are counted and listed in a table that ends
    in a `{KNOB_MAX, NULL}` sentinel; a directory of all profiles ends in
    `{NULL, 0}`. */
module Profiles {
  import opened Common
  import opened Schema
  import opened Dialect
  import opened PublicHeader

  /** A profile file: its base name (the file name without directory and extension)
      and what reading its CSV yields, a value for each knob name it mentions. */
  datatype Profile = Profile(baseName: string, csv: map<string, string>)

  /** A member of the profile's data struct: `<c type> <knob name>;`. */
  datatype StructMember = StructMember(cType: string, name: string)

  /** An initialiser of the profile's data: `.<knob name>=<value>,`. */
  datatype DataField = DataField(name: string, value: string)

  /** An entry of the override table: `.Knob = KNOB_<name>` and
      `.Value = &profile_<base>_data.<name>`, given by the knob's name; `None` is NULL. */
  datatype OverrideEntry = OverrideEntry(knob: KnobId, value: Option<string>)

  const OverrideSentinel := OverrideEntry(KnobMax, None)

  predicate EndsOverrides(e: OverrideEntry) { e.knob == KnobMax }

  /** Everything one profile contributes to the header. `upperName` is the base name
      in the `PROFILE_<NAME>_OVERRIDES_COUNT` define. */
  datatype ProfileTable = ProfileTable(
    baseName: string,
    upperName: string,
    members: seq<StructMember>,
    data: seq<DataField>,
    overrideCount: nat,
    overrides: seq<OverrideEntry>)

  /** An entry of the profile directory: `.Overrides = profile_<base>_overrides`
      (`None`: NULL) and `.OverrideCount`. */
  datatype DirectoryEntry = DirectoryEntry(overrides: Option<string>, overrideCount: nat)

  const DirectorySentinel := DirectoryEntry(None, 0)

  predicate EndsDirectory(d: DirectoryEntry) { d.overrides.None? }

  // ---------------------------------------------------------------------------
  // The specification of one profile
  // ---------------------------------------------------------------------------

  /** The knobs' values after the reset and the CSV: a knob the profile names holds
      the profile's value, every other knob holds none. */
  function Merge(knobs: seq<Knob>, csv: map<string, string>): (vals: seq<Option<string>>)
    ensures |vals| == |knobs|
    ensures forall i :: 0 <= i < |knobs| ==>
      vals[i] == if knobs[i].name in csv then Some(csv[knobs[i].name]) else None
  {
    seq(|knobs|, i requires 0 <= i < |knobs| =>
      if knobs[i].name in csv then Some(csv[knobs[i].name]) else None)
  }

  /** The indices of the knobs that hold a value, in schema order. */
  function Overridden(vals: seq<Option<string>>): (ix: seq<nat>)
    ensures forall j :: 0 <= j < |ix| ==> ix[j] < |vals| && vals[ix[j]].Some?
    ensures forall j, k :: 0 <= j < k < |ix| ==> ix[j] < ix[k]
    ensures forall i :: 0 <= i < |vals| && vals[i].Some? ==> i in ix
  {
    if vals == [] then []
    else
      var init := vals[..|vals| - 1];
      assert forall i :: 0 <= i < |init| ==> init[i] == vals[i];
      Overridden(init) + (if vals[|vals| - 1].Some? then [|vals| - 1] else [])
  }

  predicate IndicesBelow(ix: seq<nat>, n: nat)
  {
    forall j :: 0 <= j < |ix| ==> ix[j] < n
  }

  function StructMembers(knobs: seq<Knob>, ix: seq<nat>): (r: seq<StructMember>)
    requires IndicesBelow(ix, |knobs|)
    ensures |r| == |ix|
    ensures forall j :: 0 <= j < |ix| ==> r[j] == StructMember(knobs[ix[j]].format.cType, knobs[ix[j]].name)
  {
    seq(|ix|, j requires 0 <= j < |ix| => StructMember(knobs[ix[j]].format.cType, knobs[ix[j]].name))
  }

  function DataFields(knobs: seq<Knob>, vals: seq<Option<string>>, ix: seq<nat>): (r: seq<DataField>)
    requires |vals| == |knobs| && IndicesBelow(ix, |knobs|)
    requires forall j :: 0 <= j < |ix| ==> vals[ix[j]].Some?
    ensures |r| == |ix|
    ensures forall j :: 0 <= j < |ix| ==> r[j] == DataField(knobs[ix[j]].name, vals[ix[j]].value)
  {
    seq(|ix|, j requires 0 <= j < |ix| => DataField(knobs[ix[j]].name, vals[ix[j]].value))
  }

  function OverrideEntries(knobs: seq<Knob>, ix: seq<nat>): (r: seq<OverrideEntry>)
    requires IndicesBelow(ix, |knobs|)
    ensures |r| == |ix|
    ensures forall j :: 0 <= j < |ix| ==> r[j] == OverrideEntry(KnobIndex(ix[j]), Some(knobs[ix[j]].name))
  {
    seq(|ix|, j requires 0 <= j < |ix| => OverrideEntry(KnobIndex(ix[j]), Some(knobs[ix[j]].name)))
  }

  /** What the emitter writes for one profile. */
  function ProfileTableOf(knobs: seq<Knob>, p: Profile): ProfileTable
  {
    var vals := Merge(knobs, p.csv);
    var ix := Overridden(vals);
    ProfileTable(p.baseName, UpperStr(p.baseName), StructMembers(knobs, ix), DataFields(knobs, vals, ix),
      |ix|, OverrideEntries(knobs, ix) + [OverrideSentinel])
  }

  /** The indices of the knobs that hold a value, as a set. */
  function ValueIndices(vals: seq<Option<string>>): set<nat>
  {
    set i: nat | i < |vals| && vals[i].Some?
  }

  lemma ValueIndicesSnoc(vals: seq<Option<string>>)
    requires vals != []
    ensures var n := |vals| - 1;
      ValueIndices(vals) == ValueIndices(vals[..n]) + (if vals[n].Some? then {n} else {})
  {
    var n := |vals| - 1;
    forall i: nat | i < n ensures vals[..n][i] == vals[i] { }
  }

  /** The number of knobs that hold a value is the number of indices listed. */
  lemma {:induction false} OverriddenCountsValues(vals: seq<Option<string>>)
    ensures |Overridden(vals)| == |ValueIndices(vals)|
  {
    if vals != [] {
      var n := |vals| - 1;
      OverriddenCountsValues(vals[..n]);
      ValueIndicesSnoc(vals);
      assert n !in ValueIndices(vals[..n]);
    }
  }

  /** The override table of a profile ends in its one sentinel: it has the count
      plus one entries, and a walk to `KNOB_MAX` visits exactly the overrides. */
  lemma OverrideTableTerminated(knobs: seq<Knob>, p: Profile)
    ensures var t := ProfileTableOf(knobs, p);
      && |t.overrides| == t.overrideCount + 1
      && t.overrides[t.overrideCount] == OverrideSentinel
      && WalkLength(t.overrides, EndsOverrides) == t.overrideCount
      && |t.members| == |t.data| == t.overrideCount
  {
    var t := ProfileTableOf(knobs, p);
    assert forall j :: 0 <= j < t.overrideCount ==> t.overrides[j].knob.KnobIndex?;
    WalkStopsAtFirstEnd(t.overrides, EndsOverrides, t.overrideCount);
  }

  /** The count is the number of knobs the profile names. */
  lemma OverrideCountIsNamedKnobs(knobs: seq<Knob>, p: Profile)
    ensures ProfileTableOf(knobs, p).overrideCount == |set i: nat | i < |knobs| && knobs[i].name in p.csv|
  {
    var vals := Merge(knobs, p.csv);
    OverriddenCountsValues(vals);
    assert ValueIndices(vals) == (set i: nat | i < |knobs| && knobs[i].name in p.csv);
  }

  /** The overrides list, in schema order, exactly the knobs the profile names, and
      each data initialiser carries the profile's value for its knob. */
  lemma OverridesAreNamedKnobs(knobs: seq<Knob>, p: Profile)
    ensures var t := ProfileTableOf(knobs, p);
      && (forall j, k :: 0 <= j < k < t.overrideCount ==>
            Ordinal(t.overrides[j].knob, |knobs|) < Ordinal(t.overrides[k].knob, |knobs|))
      && (forall i :: 0 <= i < |knobs| ==>
            (knobs[i].name in p.csv <==>
              exists j :: 0 <= j < t.overrideCount && t.overrides[j] == OverrideEntry(KnobIndex(i), Some(knobs[i].name))))
      && (forall j :: 0 <= j < t.overrideCount ==>
            t.data[j].name in p.csv && t.data[j].value == p.csv[t.data[j].name])
  {
    var t := ProfileTableOf(knobs, p);
    var vals := Merge(knobs, p.csv);
    var ix := Overridden(vals);
    forall i | 0 <= i < |knobs| && knobs[i].name in p.csv
      ensures exists j :: 0 <= j < |ix| && t.overrides[j] == OverrideEntry(KnobIndex(i), Some(knobs[i].name))
    {
      assert vals[i].Some?;
      var j :| 0 <= j < |ix| && ix[j] == i;
      assert t.overrides[j] == OverrideEntry(KnobIndex(i), Some(knobs[i].name));
    }
    forall i | 0 <= i < |knobs| && exists j :: 0 <= j < |ix| && t.overrides[j] == OverrideEntry(KnobIndex(i), Some(knobs[i].name))
      ensures knobs[i].name in p.csv
    {
      var j :| 0 <= j < |ix| && t.overrides[j] == OverrideEntry(KnobIndex(i), Some(knobs[i].name));
      assert ix[j] == i && vals[i].Some?;
    }
  }

  /** The directory of the emitted profiles: one entry per profile in input order,
      then the sentinel. */
  function Directory(tables: seq<ProfileTable>): (d: seq<DirectoryEntry>)
  {
    seq(|tables|, i requires 0 <= i < |tables| => DirectoryEntry(Some(tables[i].baseName), tables[i].overrideCount))
      + [DirectorySentinel]
  }

  /** `PROFILE_COUNT + 1` entries, each naming its profile's table and count, and a
      walk to the NULL entry visits every profile. */
  lemma DirectoryShape(profiles: seq<Profile>, tables: seq<ProfileTable>)
    requires |tables| == |profiles|
    requires forall i :: 0 <= i < |profiles| ==> tables[i].baseName == profiles[i].baseName
    ensures var d := Directory(tables);
      && |d| == |profiles| + 1
      && d[|profiles|] == DirectorySentinel
      && WalkLength(d, EndsDirectory) == |profiles|
      && forall i :: 0 <= i < |profiles| ==>
           d[i].overrides == Some(profiles[i].baseName) && d[i].overrideCount == tables[i].overrideCount
  {
    var d := Directory(tables);
    assert forall i :: 0 <= i < |profiles| ==> d[i].overrides.Some?;
    WalkStopsAtFirstEnd(d, EndsDirectory, |profiles|);
  }

  // ---------------------------------------------------------------------------
  // The struct-member line as written (lines 738-744)
  // ---------------------------------------------------------------------------

  /** The first loop as written: the `out.write(..., + get_line_ending(...))` call
      applies unary `+` to a string, so it raises TypeError (`None`) at the first
      knob that holds a value. */
  function StructLoopAsWritten(vals: seq<Option<string>>): (r: Option<nat>)
    ensures r.Some? ==> r.value == 0 && forall i :: 0 <= i < |vals| ==> vals[i].None?
  {
    if vals == [] then Some(0)
    else
      var n := |vals| - 1;
      match StructLoopAsWritten(vals[..n])
      case None => None
      case Some(count) => if vals[n].Some? then None else Some(count)
  }

  /** As written, the emitter fails on every profile that overrides any knob. */
  lemma {:induction false} StructLoopFailsOnAnyOverride(vals: seq<Option<string>>)
    ensures StructLoopAsWritten(vals).None? <==> exists i :: 0 <= i < |vals| && vals[i].Some?
  {
    if vals != [] {
      var n := |vals| - 1;
      StructLoopFailsOnAnyOverride(vals[..n]);
      assert forall i :: 0 <= i < n ==> vals[..n][i] == vals[i];
    }
  }

  /** A one-knob profile that overrides that knob makes the emitter raise. */
  lemma StructLoopFailsExample()
    ensures var f := Format(ScalarFormat, "bool", 0, 1);
      var knobs := [Knob("enable", "", "", f, "false", [])];
      && Merge(knobs, map["enable" := "true"]) == [Some("true")]
      && StructLoopAsWritten(Merge(knobs, map["enable" := "true"])).None?
  {
    var f := Format(ScalarFormat, "bool", 0, 1);
    var knobs := [Knob("enable", "", "", f, "false", [])];
    var vals := Merge(knobs, map["enable" := "true"]);
    assert vals == [Some("true")];
    assert knobs[..0] == [] && vals[..0] == [];
  }

  // ---------------------------------------------------------------------------
  // The emitter
  // ---------------------------------------------------------------------------

  /** The knob list and the knobs' `value` fields, which the emitter resets and
      overwrites for each profile in turn. */
  class ProfileMerger {
    const knobs: seq<Knob>
    const values: array<Option<string>>

    predicate Valid()
    {
      values.Length == |knobs|
    }

    constructor (knobs: seq<Knob>)
      ensures this.knobs == knobs && Valid()
      ensures fresh(values)
      ensures forall i :: 0 <= i < values.Length ==> values[i].None?
    {
      this.knobs := knobs;
      values := new Option<string>[|knobs|](_ => None);
    }

    /** `knob.value = None` for every knob. */
    method Reset()
      requires Valid()
      modifies values
      ensures forall i :: 0 <= i < values.Length ==> values[i].None?
    {
      var i := 0;
      while i < values.Length
        invariant 0 <= i <= values.Length
        invariant forall k :: 0 <= k < i ==> values[k].None?
      {
        values[i] := None;
        i := i + 1;
      }
    }

    /** The effect of `read_csv`: each knob the CSV names takes the CSV's value; the
        others keep theirs. */
    method ReadCsv(csv: map<string, string>)
      requires Valid()
      modifies values
      ensures forall i :: 0 <= i < values.Length ==>
        values[i] == if knobs[i].name in csv then Some(csv[knobs[i].name]) else old(values[i])
    {
      var i := 0;
      while i < values.Length
        invariant 0 <= i <= values.Length
        invariant forall k :: 0 <= k < i ==>
          values[k] == if knobs[k].name in csv then Some(csv[knobs[k].name]) else old(values[k])
        invariant forall k :: i <= k < values.Length ==> values[k] == old(values[k])
      {
        if knobs[i].name in csv {
          values[i] := Some(csv[knobs[i].name]);
        }
        i := i + 1;
      }
    }

    /** The struct loop, with the struct-member line as evidently intended: one
        member per knob that holds a value, counted in `count`. */
    method CountOverrides() returns (count: nat, members: seq<StructMember>)
      requires Valid()
      ensures count == |Overridden(values[..])|
      ensures members == StructMembers(knobs, Overridden(values[..]))
    {
      var vals := values[..];
      count := 0;
      members := [];
      var i := 0;
      while i < |vals|
        invariant 0 <= i <= |vals|
        invariant count == |Overridden(vals[..i])|
        invariant IndicesBelow(Overridden(vals[..i]), |knobs|)
        invariant members == StructMembers(knobs, Overridden(vals[..i]))
      {
        assert vals[..i + 1][..i] == vals[..i];
        if vals[i].Some? {
          count := count + 1;
          members := members + [StructMember(knobs[i].format.cType, knobs[i].name)];
        }
        i := i + 1;
      }
      assert vals[..i] == vals;
    }

    /** The data loop: one initialiser per knob that holds a value. */
    method DataInitialisers() returns (data: seq<DataField>)
      requires Valid()
      ensures data == DataFields(knobs, values[..], Overridden(values[..]))
    {
      var vals := values[..];
      data := [];
      var i := 0;
      while i < |vals|
        invariant 0 <= i <= |vals|
        invariant var ix := Overridden(vals[..i]);
          && IndicesBelow(ix, |knobs|)
          && (forall j :: 0 <= j < |ix| ==> vals[ix[j]].Some?)
          && data == DataFields(knobs, vals, ix)
      {
        assert vals[..i + 1][..i] == vals[..i];
        if vals[i].Some? {
          data := data + [DataField(knobs[i].name, vals[i].value)];
        }
        i := i + 1;
      }
      assert vals[..i] == vals;
    }

    /** The override loop: one entry per knob that holds a value, then the sentinel. */
    method OverrideList() returns (overrides: seq<OverrideEntry>)
      requires Valid()
      ensures overrides == OverrideEntries(knobs, Overridden(values[..])) + [OverrideSentinel]
    {
      var vals := values[..];
      overrides := [];
      var i := 0;
      while i < |vals|
        invariant 0 <= i <= |vals|
        invariant IndicesBelow(Overridden(vals[..i]), |knobs|)
        invariant overrides == OverrideEntries(knobs, Overridden(vals[..i]))
      {
        assert vals[..i + 1][..i] == vals[..i];
        if vals[i].Some? {
          overrides := overrides + [OverrideEntry(KnobIndex(i), Some(knobs[i].name))];
        }
        i := i + 1;
      }
      assert vals[..i] == vals;
      overrides := overrides + [OverrideSentinel];
    }

    /** One profile: reset, read, then the three loops. Whatever the knobs held
        before, the result depends only on the profile. */
    method EmitProfile(p: Profile) returns (t: ProfileTable)
      requires Valid()
      modifies values
      ensures values[..] == Merge(knobs, p.csv)
      ensures t == ProfileTableOf(knobs, p)
    {
      Reset();
      ReadCsv(p.csv);
      assert values[..] == Merge(knobs, p.csv);
      var count, members := CountOverrides();
      var data := DataInitialisers();
      var overrides := OverrideList();
      t := ProfileTable(p.baseName, UpperStr(p.baseName), members, data, count, overrides);
    }

    /** All profiles in input order, then the directory. */
    method GenerateProfiles(profiles: seq<Profile>) returns (tables: seq<ProfileTable>, directory: seq<DirectoryEntry>)
      requires Valid()
      modifies values
      ensures |tables| == |profiles|
      ensures forall i :: 0 <= i < |profiles| ==> tables[i] == ProfileTableOf(knobs, profiles[i])
      ensures directory == Directory(tables)
      ensures profiles != [] ==> values[..] == Merge(knobs, profiles[|profiles| - 1].csv)
      ensures profiles == [] ==> values[..] == old(values[..])
    {
      tables := [];
      var i := 0;
      while i < |profiles|
        invariant 0 <= i <= |profiles|
        invariant |tables| == i
        invariant forall k :: 0 <= k < i ==> tables[k] == ProfileTableOf(knobs, profiles[k])
        invariant i > 0 ==> values[..] == Merge(knobs, profiles[i - 1].csv)
        invariant i == 0 ==> values[..] == old(values[..])
      {
        var t := EmitProfile(profiles[i]);
        tables := tables + [t];
        i := i + 1;
      }
      directory := [];
      i := 0;
      while i < |tables|
        invariant 0 <= i <= |tables|
        invariant directory == Directory(tables[..i])[..i]
      {
        directory := directory + [DirectoryEntry(Some(tables[i].baseName), tables[i].overrideCount)];
        i := i + 1;
      }
      assert tables[..i] == tables;
      directory := directory + [DirectorySentinel];
    }
  }
}
