/** Dialect policy (KnobService.py lines 15-127): how the generic-C dialect and the
    UEFI dialect spell type names, boolean literals, indentation, line endings,
    include guards, static assertions and identifiers. `uefi` selects the dialect. */
module Dialect {
  import opened Common

  // ---------------------------------------------------------------------------
  // Characters
  // ---------------------------------------------------------------------------

  predicate IsLower(c: char) { 'a' <= c <= 'z' }

  /** Python's `str.upper` restricted to ASCII, which is what identifiers contain. */
  function Upper(c: char): char
  {
    if IsLower(c) then (c as int - 32) as char else c
  }

  function UpperStr(s: string): string
  {
    seq(|s|, i requires 0 <= i < |s| => Upper(s[i]))
  }

  lemma UpperFacts(c: char)
    ensures !IsLower(Upper(c))
    ensures Upper(Upper(c)) == Upper(c)
    ensures Upper(c) == '_' <==> c == '_'
    ensures Upper(c) == '.' <==> c == '.'
  {
  }

  /** The first position of `c` in `s`: what `re.search` finds for a one-character pattern. */
  function IndexOf(s: string, c: char): (r: Option<nat>)
    ensures r.None? <==> c !in s
    ensures r.Some? ==> r.value < |s| && s[r.value] == c && c !in s[..r.value]
  {
    if s == [] then None
    else if s[0] == c then Some(0)
    else match IndexOf(s[1..], c)
      case None => None
      case Some(k) => Some(k + 1)
  }

  // ---------------------------------------------------------------------------
  // get_type_string, get_value_string, get_spacing_string, get_line_ending
  // ---------------------------------------------------------------------------

  /** The UEFI spelling of the generic C type names (lines 17-36). */
  const UefiTypes: map<string, string> := map[
    "int8_t" := "INT8",
    "int16_t" := "INT16",
    "int32_t" := "INT32",
    "int64_t" := "INT64",
    "uint8_t" := "UINT8",
    "uint16_t" := "UINT16",
    "uint32_t" := "UINT32",
    "uint64_t" := "UINT64",
    "bool" := "BOOLEAN",
    "float" := "float",
    "double" := "double",
    "size_t" := "UINTN",
    "int" := "INTN",
    "const" := "CONST",
    "void*" := "VOID *",
    "char*" := "CHAR8 *",
    "config_guid_t" := "EFI_GUID",
    "void" := "VOID"
  ]

  /** get_type_string: the generic dialect keeps every name; the UEFI dialect
      translates the names of the table and keeps all others. */
  function TypeString(typeName: string, uefi: bool): (r: string)
    ensures !uefi ==> r == typeName
    ensures typeName !in UefiTypes ==> r == typeName
    ensures uefi && typeName in UefiTypes ==> r == UefiTypes[typeName]
  {
    if uefi && typeName in UefiTypes then UefiTypes[typeName] else typeName
  }

  predicate IsBoolLiteral(value: string) { value == "true" || value == "false" }

  /** get_value_string: only the literals `true`/`false`, and only in the UEFI
      dialect, are changed, and then to their upper-case spelling. */
  function ValueString(value: string, uefi: bool): (r: string)
    ensures r != value <==> uefi && IsBoolLiteral(value)
    ensures uefi && IsBoolLiteral(value) ==> r == UpperStr(value)
  {
    if value == "true" && uefi then "TRUE"
    else if value == "false" && uefi then "FALSE"
    else value
  }

  /** Columns per indentation level: 2 in UEFI, 4 in generic C. */
  function IndentWidth(uefi: bool): nat { if uefi then 2 else 4 }

  /** get_spacing_string: `num` indentation levels of blanks; `range(0, num)` is
      empty for a non-positive `num`. */
  method SpacingString(uefi: bool, num: int) returns (spaces: string)
    ensures |spaces| == if num <= 0 then 0 else IndentWidth(uefi) * num
    ensures forall i :: 0 <= i < |spaces| ==> spaces[i] == ' '
  {
    spaces := "";
    var i := 0;
    while i < num
      invariant num <= 0 ==> i == 0
      invariant num > 0 ==> 0 <= i <= num
      invariant |spaces| == IndentWidth(uefi) * i
      invariant forall k :: 0 <= k < |spaces| ==> spaces[k] == ' '
    {
      if uefi {
        spaces := spaces + "  ";
      } else {
        spaces := spaces + "    ";
      }
      i := i + 1;
    }
  }

  /** get_line_ending: CRLF in UEFI, LF in generic C. */
  function LineEnding(uefi: bool): (r: string)
    ensures |r| > 0 && r[|r| - 1] == '\n'
    ensures |r| == 2 <==> uefi
    ensures uefi ==> r[0] == '\r'
    ensures !uefi ==> r == "\n"
  {
    if uefi then "\r\n" else "\n"
  }

  // ---------------------------------------------------------------------------
  // get_include_once_style
  // ---------------------------------------------------------------------------

  function ReplaceDots(s: string): string
  {
    seq(|s|, i requires 0 <= i < |s| => if s[i] == '.' then '_' else s[i])
  }

  /** The include-guard macro of a UEFI header: the path with every `.` turned
      into `_`, upper-cased. */
  function GuardName(name: string): (g: string)
    ensures |g| == |name|
    ensures '.' !in g
    ensures forall i :: 0 <= i < |g| ==> !IsLower(g[i])
    ensures forall i :: 0 <= i < |g| ==> (g[i] == '_' <==> name[i] == '.' || name[i] == '_')
    ensures forall i :: 0 <= i < |g| ==> g[i] == if name[i] == '.' then '_' else Upper(name[i])
  {
    var r := ReplaceDots(name);
    forall i | 0 <= i < |r| ensures Upper(r[i]) != '.' && !IsLower(Upper(r[i])) && (Upper(r[i]) == '_' <==> r[i] == '_') {
      UpperFacts(r[i]);
    }
    UpperStr(r)
  }

  /** One turn of the loop of get_include_once_style: replacing the first `.` keeps
      the dot-free prefix and the final result. */
  lemma ReplaceFirstDot(n: string, i: nat)
    requires i < |n| && n[i] == '.' && '.' !in n[..i]
    ensures var n' := n[..i] + "_" + n[i + 1..];
      |n'| == |n| && ReplaceDots(n') == ReplaceDots(n) && forall k :: 0 <= k <= i ==> n'[k] != '.'
  {
    var n' := n[..i] + "_" + n[i + 1..];
    assert forall k :: 0 <= k < i ==> n'[k] == n[k] && n[k] != '.' by {
      forall k | 0 <= k < i ensures n'[k] == n[k] && n[k] != '.' { assert n[..i][k] == n[k]; }
    }
  }

  /** The text the include-guard helper returns, opening (`header`) or closing. */
  function IncludeGuard(name: string, uefi: bool, header: bool): string
  {
    if uefi then
      if header then "#ifndef " + GuardName(name) + LineEnding(uefi) + "#define " + GuardName(name) + LineEnding(uefi)
      else "#endif // " + GuardName(name) + LineEnding(uefi)
    else if header then "#pragma once" + LineEnding(uefi)
    else LineEnding(uefi)
  }

  /** get_include_once_style: in UEFI the loop rewrites the first remaining `.`
      of the name until none is left. */
  method IncludeOnceStyle(name: string, uefi: bool, header: bool) returns (text: string)
    ensures text == IncludeGuard(name, uefi, header)
  {
    if uefi {
      var n := name;
      ghost var done := 0;
      var m := IndexOf(n, '.');
      while m.Some?
        invariant m == IndexOf(n, '.')
        invariant |n| == |name| && ReplaceDots(n) == ReplaceDots(name)
        invariant done <= |n| && forall k :: 0 <= k < done ==> n[k] != '.'
        decreases |n| - done
      {
        var i := m.value;
        ReplaceFirstDot(n, i);
        n := n[..i] + "_" + n[i + 1..];
        done := i + 1;
        m := IndexOf(n, '.');
      }
      assert ReplaceDots(n) == n;
      if header {
        text := "#ifndef " + UpperStr(n) + LineEnding(uefi) + "#define " + UpperStr(n) + LineEnding(uefi);
      } else {
        text := "#endif // " + UpperStr(n) + LineEnding(uefi);
      }
    } else if header {
      text := "#pragma once" + LineEnding(uefi);
    } else {
      text := LineEnding(uefi);
    }
  }

  // ---------------------------------------------------------------------------
  // naming_convention_filter
  // ---------------------------------------------------------------------------

  predicate EndsWithUnderscore(s: string) { |s| > 0 && s[|s| - 1] == '_' }

  /** `value[-2:] == "_t"` then `value[:-2]`: one trailing `_t` dropped. */
  function StripTypeSuffix(value: string): string
  {
    if |value| >= 2 && value[|value| - 2..] == "_t" then value[..|value| - 2] else value
  }

  /** Reference camel-casing, read left to right: every `_` disappears and the first
      character after a run of them is upper-cased. */
  function CamelCase(s: string, capitalizeNext: bool): string
  {
    if s == [] then []
    else if s[0] == '_' then CamelCase(s[1..], true)
    else [if capitalizeNext then Upper(s[0]) else s[0]] + CamelCase(s[1..], false)
  }

  /** naming_convention_filter. `None` is the IndexError the source raises: on an
      empty name, on `"_"`, and when the loop meets a `_` as the last character. */
  function Rename(value: string, isType: bool, uefi: bool): (r: Option<string>)
    ensures !uefi ==> r == Some(value)
    ensures uefi && isType ==> r.Some?
  {
    if !uefi then Some(value)
    else if isType then Some(UpperStr(StripTypeSuffix(value)))
    else if value == [] then None
    else
      var v1 := if value[0] == '_' then value[1..] else value;
      if v1 == [] then None
      else
        var v3 := FieldBase(v1);
        if EndsWithUnderscore(v3) then None else Some(CamelCase(v3, false))
  }

  /** The field name once its first character is upper-cased and one trailing `_`
      is dropped: what the loop of naming_convention_filter starts from. */
  function FieldBase(v1: string): string
    requires v1 != []
  {
    var v2 := [Upper(v1[0])] + v1[1..];
    if v2[|v2| - 1] == '_' then v2[..|v2| - 1] else v2
  }

  lemma FieldBaseEnd(v1: string)
    requires v1 != []
    ensures EndsWithUnderscore(FieldBase(v1)) <==> |v1| >= 2 && v1[|v1| - 2] == '_' && v1[|v1| - 1] == '_'
  {
    var v2 := [Upper(v1[0])] + v1[1..];
    UpperFacts(v1[0]);
    assert forall k :: 0 <= k < |v2| ==> (v2[k] == '_' <==> v1[k] == '_');
  }

  lemma {:induction false} CamelCaseHasNoUnderscore(s: string, capitalizeNext: bool)
    ensures '_' !in CamelCase(s, capitalizeNext)
  {
    if s != [] {
      CamelCaseHasNoUnderscore(s[1..], s[0] == '_');
      if s[0] != '_' { UpperFacts(s[0]); }
    }
  }

  lemma {:induction false} CamelCaseKeepsPlainText(s: string)
    requires '_' !in s
    ensures CamelCase(s, false) == s
  {
    if s != [] {
      CamelCaseKeepsPlainText(s[1..]);
    }
  }

  lemma {:induction false} CamelCaseOfPlainPrefix(p: string, t: string)
    requires '_' !in p
    ensures CamelCase(p + t, false) == p + CamelCase(t, false)
  {
    if p != [] {
      assert p[0] in p && p[0] != '_';
      assert '_' !in p[1..] by { assert forall k :: 0 <= k < |p[1..]| ==> p[1..][k] == p[k + 1]; }
      assert (p + t)[0] == p[0];
      assert (p + t)[1..] == p[1..] + t;
      CamelCaseOfPlainPrefix(p[1..], t);
      calc {
        CamelCase(p + t, false);
        [p[0]] + CamelCase(p[1..] + t, false);
        [p[0]] + (p[1..] + CamelCase(t, false));
        { assert p == [p[0]] + p[1..]; }
        p + CamelCase(t, false);
      }
    } else {
      assert p + t == t;
    }
  }

  /** One turn of the loop of naming_convention_filter (remove the first `_`,
      upper-case the character after it) does not change the camel-cased result
      nor whether the name ends in `_`. */
  lemma CamelCaseStep(v: string, i: nat)
    requires i + 1 < |v| && v[i] == '_' && '_' !in v[..i]
    ensures var v' := v[..i] + [Upper(v[i + 1])] + v[i + 2..];
      CamelCase(v', false) == CamelCase(v, false) && (EndsWithUnderscore(v') <==> EndsWithUnderscore(v))
  {
    var p, c, rest := v[..i], v[i + 1], v[i + 2..];
    var v' := v[..i] + [Upper(c)] + rest;
    assert v == p + ([v[i]] + ([c] + rest));
    assert v' == p + ([Upper(c)] + rest);
    calc {
      CamelCase(v, false);
      { CamelCaseOfPlainPrefix(p, [v[i]] + ([c] + rest)); }
      p + CamelCase([v[i]] + ([c] + rest), false);
      { CamelCaseAfterUnderscore(c, rest); }
      p + CamelCase([Upper(c)] + rest, false);
      { CamelCaseOfPlainPrefix(p, [Upper(c)] + rest); }
      CamelCase(v', false);
    }
    UpperFacts(c);
    assert v'[|v'| - 1] == '_' <==> v[|v| - 1] == '_';
  }

  /** An `_` followed by `c` camel-cases as the upper-cased `c` alone. */
  lemma CamelCaseAfterUnderscore(c: char, rest: string)
    ensures CamelCase(['_'] + ([c] + rest), false) == CamelCase([Upper(c)] + rest, false)
  {
    UpperFacts(c);
    assert (['_'] + ([c] + rest))[1..] == [c] + rest;
    assert ([c] + rest)[1..] == rest;
    assert ([Upper(c)] + rest)[1..] == rest;
  }

  /** naming_convention_filter, with the `re.search` loop that removes one `_` at a time. */
  method NamingConventionFilter(value: string, isType: bool, uefi: bool) returns (r: Option<string>)
    ensures r == Rename(value, isType, uefi)
  {
    if !uefi {
      return Some(value);
    }
    if isType {
      var v := value;
      if |v| >= 2 && v[|v| - 2..] == "_t" {
        v := v[..|v| - 2];
      }
      return Some(UpperStr(v));
    }
    if |value| == 0 {
      return None;
    }
    var v := value;
    if v[0] == '_' {
      v := v[1..];
    }
    if |v| == 0 {
      return None;
    }
    v := [Upper(v[0])] + v[1..];
    if v[|v| - 1] == '_' {
      v := v[..|v| - 1];
    }
    assert v == FieldBase(value[if value[0] == '_' then 1 else 0..]);
    r := RemoveUnderscores(v);
  }

  /** The `re.search("_", value)` loop: each turn drops the first `_` and
      upper-cases the character after it; an `_` in last position makes
      `value[i + 1]` raise IndexError (`None`). */
  method RemoveUnderscores(start: string) returns (r: Option<string>)
    ensures r == if EndsWithUnderscore(start) then None else Some(CamelCase(start, false))
  {
    var v := start;
    var m := IndexOf(v, '_');
    while m.Some?
      invariant m == IndexOf(v, '_')
      invariant CamelCase(v, false) == CamelCase(start, false)
      invariant EndsWithUnderscore(v) <==> EndsWithUnderscore(start)
      decreases |v|
    {
      var i := m.value;
      if i + 1 == |v| {
        return None;
      }
      CamelCaseStep(v, i);
      v := v[..i] + [Upper(v[i + 1])] + v[i + 2..];
      m := IndexOf(v, '_');
    }
    CamelCaseKeepsPlainText(v);
    return Some(v);
  }

  /** A UEFI field or function name has no `_` left. */
  lemma RenamedFieldHasNoUnderscore(value: string)
    requires Rename(value, false, true).Some?
    ensures '_' !in Rename(value, false, true).value
  {
    var v1 := if value[0] == '_' then value[1..] else value;
    CamelCaseHasNoUnderscore(FieldBase(v1), false);
  }

  /** Renaming a UEFI field name fails exactly on the empty name, on `_`, and on a
      name of three or more characters that ends in a doubled underscore. */
  lemma RenameFieldFails(value: string)
    ensures Rename(value, false, true).None? <==>
      value == [] || value == "_" || (|value| >= 3 && value[|value| - 2..] == "__")
  {
    if value != [] && value != "_" {
      var v1 := if value[0] == '_' then value[1..] else value;
      assert v1 != [] by { if value[0] == '_' { assert value == [value[0]] + v1; } }
      FieldBaseEnd(v1);
      var doubled := |v1| >= 2 && v1[|v1| - 2] == '_' && v1[|v1| - 1] == '_';
      assert v1 == value[|value| - |v1|..];
      assert doubled <==> |value| >= 3 && value[|value| - 2..] == "__" by {
        if doubled {
          assert value[|value| - 2..] == [v1[|v1| - 2], v1[|v1| - 1]];
          if value[0] != '_' { assert |value| >= 3 by { if |value| == 2 { assert value[0] == v1[0]; } } }
        }
        if |value| >= 3 && value[|value| - 2..] == "__" {
          assert value[|value| - 2] == '_' && value[|value| - 1] == '_';
        }
      }
    }
  }

  /** A UEFI field name starts with the upper case of its first character after an
      optional leading `_` (lines 105-109), when that character is not itself `_`. */
  lemma RenameFieldCapitalizes(value: string)
    requires |value| > 0 && Rename(value, false, true).Some?
    ensures var c := if value[0] == '_' then value[1] else value[0];
      var r := Rename(value, false, true).value;
      c != '_' ==> |r| > 0 && r[0] == Upper(c)
  {
    var v1 := if value[0] == '_' then value[1..] else value;
    assert v1 != [];
    if v1[0] != '_' {
      UpperFacts(v1[0]);
      var v3 := FieldBase(v1);
      assert v3[0] == Upper(v1[0]);
      assert v3 == [v3[0]] + v3[1..];
    }
  }

  /** A UEFI type name loses one trailing `_t` and is otherwise its own characters
      upper-cased, so no lower-case letter is left and renaming it again changes
      nothing. */
  lemma RenamedTypeName(value: string)
    ensures var r := Rename(value, true, true).value;
      && |r| == (if |value| >= 2 && value[|value| - 2..] == "_t" then |value| - 2 else |value|)
      && (forall i :: 0 <= i < |r| ==> r[i] == Upper(value[i]))
      && (forall i :: 0 <= i < |r| ==> !IsLower(r[i]))
      && Rename(r, true, true) == Some(r)
  {
    var r := Rename(value, true, true).value;
    forall i | 0 <= i < |r| ensures !IsLower(r[i]) && Upper(r[i]) == r[i] {
      UpperFacts(StripTypeSuffix(value)[i]);
    }
    if |r| >= 2 {
      assert r[|r| - 1] != 't';
      assert r[|r| - 2..] != "_t" by { assert r[|r| - 2..][1] == r[|r| - 1]; }
    }
    assert StripTypeSuffix(r) == r;
    assert UpperStr(r) == r;
  }

  // ---------------------------------------------------------------------------
  // get_assert_style
  // ---------------------------------------------------------------------------

  /** get_assert_style: `assertString` carries the opening parenthesis and the
      condition; UEFI uses STATIC_ASSERT with the message, generic C the C_ASSERT
      macro the public header defines, without it. */
  function AssertStyle(uefi: bool, assertString: string, msg: string): (r: string)
    ensures var macro := if uefi then "STATIC_ASSERT" else "C_ASSERT";
      && |r| >= |macro| + |assertString| + 2
      && r[..|macro|] == macro
      && r[|macro|..|macro| + |assertString|] == assertString
      && r[|r| - 2..] == ");"
      && (uefi ==> r[|macro| + |assertString|..|r| - 2] == ", " + msg)
      && (!uefi ==> |r| == |macro| + |assertString| + 2)
  {
    if uefi then "STATIC_ASSERT" + assertString + ", " + msg + ");"
    else "C_ASSERT" + assertString + ");"
  }
}
