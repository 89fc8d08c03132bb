/** Decisions of the public header emitter (KnobService.py lines 130-377): the enum
    padding member, the MIN/MAX defines of narrowed sub-knob bounds, and the
    `knob_t` enumeration of knob identities. */
module PublicHeader {
  import opened Common
  import opened Schema

  // ---------------------------------------------------------------------------
  // Enum padding (lines 162-189)
  // ---------------------------------------------------------------------------

  predicate HasNegative(e: EnumDef)
  {
    exists i :: 0 <= i < |e.values| && e.values[i].number < 0
  }

  /** The `_<Enum>_PADDING` member: 0x7fffffff when a member is negative, so that the
      enum stays a signed 32-bit type, and 0xffffffff otherwise. */
  function PaddingOf(e: EnumDef): int
  {
    if HasNegative(e) then 0x7fff_ffff else 0xffff_ffff
  }

  /** The emitter's loop over the members, raising `has_negative` on a negative number. */
  method EnumPadding(e: EnumDef) returns (padding: int)
    ensures padding == PaddingOf(e)
    ensures padding == 0x7fff_ffff <==> HasNegative(e)
  {
    var hasNegative := false;
    var i := 0;
    while i < |e.values|
      invariant 0 <= i <= |e.values|
      invariant hasNegative <==> exists k :: 0 <= k < i && e.values[k].number < 0
    {
      if e.values[i].number < 0 {
        hasNegative := true;
      }
      i := i + 1;
    }
    if hasNegative {
      padding := 0x7fff_ffff;
    } else {
      padding := 0xffff_ffff;
    }
  }

  /** With members that fit the enum's 32-bit type (signed when one is negative,
      unsigned otherwise), the padding is the largest value of the enum and fits that
      type too. That is what pins the enum to 4 bytes. */
  lemma PaddingKeepsEnum32Bit(e: EnumDef)
    requires HasNegative(e) ==> forall i :: 0 <= i < |e.values| ==> InInt32(e.values[i].number)
    requires !HasNegative(e) ==> forall i :: 0 <= i < |e.values| ==> InUint32(e.values[i].number)
    ensures forall i :: 0 <= i < |e.values| ==> e.values[i].number <= PaddingOf(e)
    ensures !HasNegative(e) ==> InUint32(PaddingOf(e))
    ensures HasNegative(e) ==> InInt32(PaddingOf(e))
  {
  }

  // ---------------------------------------------------------------------------
  // Sub-knob MIN/MAX defines (lines 231-241)
  // ---------------------------------------------------------------------------

  /** One character of a sub-knob path as it appears in a define name. */
  function MangleChar(c: char): string
  {
    if c == '[' || c == ']' then "_" else if c == '.' then "__" else [c]
  }

  /** The define name of a sub-knob path: `[` and `]` become `_`, `.` becomes `__`. */
  function DefineName(path: string): (r: string)
    ensures '[' !in r && ']' !in r && '.' !in r
  {
    if path == [] then [] else MangleChar(path[0]) + DefineName(path[1..])
  }

  /** Python's `str.replace` of one character by a string. */
  function ReplaceChar(s: string, c: char, with: string): string
  {
    if s == [] then [] else (if s[0] == c then with else [s[0]]) + ReplaceChar(s[1..], c, with)
  }

  lemma {:induction false} ReplaceCharAppend(a: string, b: string, c: char, with: string)
    ensures ReplaceChar(a + b, c, with) == ReplaceChar(a, c, with) + ReplaceChar(b, c, with)
  {
    if a == [] {
      assert a + b == b;
    } else {
      assert (a + b)[0] == a[0] && (a + b)[1..] == a[1..] + b;
      ReplaceCharAppend(a[1..], b, c, with);
    }
  }

  lemma SingleReplace(c: char, target: char, with: string)
    ensures ReplaceChar([c], target, with) == if c == target then with else [c]
  {
    assert [c][1..] == [];
  }

  /** The source's three chained replacements produce the one-pass define name. */
  lemma {:induction false} DefineNameIsChainedReplace(path: string)
    ensures ReplaceChar(ReplaceChar(ReplaceChar(path, '[', "_"), ']', "_"), '.', "__") == DefineName(path)
  {
    if path != [] {
      var c, rest := path[0], path[1..];
      var one := if c == '[' then "_" else [c];
      var two := ReplaceChar(one, ']', "_");
      ReplaceCharAppend(one, ReplaceChar(rest, '[', "_"), ']', "_");
      ReplaceCharAppend(two, ReplaceChar(ReplaceChar(rest, '[', "_"), ']', "_"), '.', "__");
      DefineNameIsChainedReplace(rest);
      assert ReplaceChar(ReplaceChar(one, ']', "_"), '.', "__") == MangleChar(c) by {
        SingleReplace(c, '[', "_");
        SingleReplace(one[0], ']', "_");
        SingleReplace(two[0], '.', "__");
      }
    }
  }

  datatype BoundKind = Min | Max

  /** `#define KNOB__<name>__MIN <value>` or `..__MAX ..`. */
  datatype BoundDefine = BoundDefine(name: string, kind: BoundKind, value: int)

  /** The defines of one sub-knob: a leaf gets MIN when its `min` differs from its
      format's, and MAX when its `max` does. */
  function LeafDefines(s: SubKnob): seq<BoundDefine>
  {
    if !s.leaf then []
    else
      (if s.min != s.format.min then [BoundDefine(DefineName(s.name), Min, s.min)] else [])
      + (if s.max != s.format.max then [BoundDefine(DefineName(s.name), Max, s.max)] else [])
  }

  /** The defines of a sequence of sub-knobs, in order. */
  function BoundDefines(subknobs: seq<SubKnob>): seq<BoundDefine>
  {
    if subknobs == [] then []
    else BoundDefines(subknobs[..|subknobs| - 1]) + LeafDefines(subknobs[|subknobs| - 1])
  }

  /** `d` is the MIN or MAX define of a bound of `s` that differs from its format's. */
  predicate DefinesBound(s: SubKnob, d: BoundDefine)
  {
    s.leaf &&
    ((d == BoundDefine(DefineName(s.name), Min, s.min) && s.min != s.format.min) ||
     (d == BoundDefine(DefineName(s.name), Max, s.max) && s.max != s.format.max))
  }

  lemma LeafDefinesExactly(s: SubKnob, d: BoundDefine)
    ensures d in LeafDefines(s) <==> DefinesBound(s, d)
  {
  }

  /** A define is emitted exactly for a leaf bound that differs from its format's. */
  lemma {:induction false} BoundDefinesExactly(subknobs: seq<SubKnob>, d: BoundDefine)
    ensures d in BoundDefines(subknobs) <==> exists i :: 0 <= i < |subknobs| && DefinesBound(subknobs[i], d)
  {
    if subknobs != [] {
      var n := |subknobs| - 1;
      var init := subknobs[..n];
      BoundDefinesExactly(init, d);
      LeafDefinesExactly(subknobs[n], d);
      assert forall i :: 0 <= i < n ==> init[i] == subknobs[i];
      if d in BoundDefines(subknobs) && !DefinesBound(subknobs[n], d) {
        var i :| 0 <= i < n && DefinesBound(init[i], d);
        assert DefinesBound(subknobs[i], d);
      }
    }
  }

  /** The emitter's loop over the sub-knobs of one knob. */
  method KnobBoundDefines(k: Knob) returns (defines: seq<BoundDefine>)
    ensures defines == BoundDefines(k.subknobs)
  {
    defines := [];
    var i := 0;
    while i < |k.subknobs|
      invariant 0 <= i <= |k.subknobs|
      invariant defines == BoundDefines(k.subknobs[..i])
    {
      var s := k.subknobs[i];
      assert k.subknobs[..i + 1][..i] == k.subknobs[..i];
      if s.leaf {
        var name := DefineName(s.name);
        if s.min != s.format.min {
          defines := defines + [BoundDefine(name, Min, s.min)];
        }
        if s.max != s.format.max {
          defines := defines + [BoundDefine(name, Max, s.max)];
        }
      }
      i := i + 1;
    }
    assert k.subknobs[..i] == k.subknobs;
  }

  // ---------------------------------------------------------------------------
  // The knob_t enumeration (lines 267-271)
  // ---------------------------------------------------------------------------

  /** A member of `knob_t`: `KNOB_<name>` for the knob at a schema index, or `KNOB_MAX`. */
  datatype KnobId = KnobIndex(index: nat) | KnobMax

  /** The integer value of a `knob_t` member in a schema of `count` knobs: members are
      numbered from 0 in schema order and `KNOB_MAX` follows the last knob. */
  function Ordinal(id: KnobId, count: nat): (r: nat)
    ensures id.KnobIndex? ==> r == id.index
    ensures id.KnobIndex? && id.index < count ==> r < count
    ensures id.KnobMax? ==> r == count
  {
    match id
    case KnobIndex(i) => i
    case KnobMax => count
  }

  /** Among the members of `knob_t` for `count` knobs, distinct members have distinct
      values, and `KNOB_MAX` is the only one equal to the count. */
  lemma OrdinalInjective(a: KnobId, b: KnobId, count: nat)
    requires a.KnobIndex? ==> a.index < count
    requires b.KnobIndex? ==> b.index < count
    ensures Ordinal(a, count) == Ordinal(b, count) <==> a == b
    ensures Ordinal(a, count) == count <==> a == KnobMax
  {
  }
}
