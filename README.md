# KnobService header generator, modelled in Dafny

`SetupDataPkg/Tools/KnobService.py` turns a parsed configuration-knob schema into
C headers, in two dialects: generic C and UEFI. This project models the
decisions that script makes and proves what the generated code does:

- **Dialect helpers** (`dialect.dfy`). These cover:
  - type-name translation;
  - boolean literals;
  - indentation and line endings;
  - include guards;
  - static asserts;
  - the identifier filter that turns `snake_case` into UEFI `UpperCamel` fields and `UPPER` types.

  The helpers that loop in the source (`get_spacing_string`, the `re.search` loops
  of `get_include_once_style` and `naming_convention_filter`) are methods. Each is
  proved equal to a reference function or to its stated property, and the properties are lemmas about that function.
- **Public header** (`public_header.dfy`). It covers:
  - the `_<Enum>_PADDING` member;
  - the `KNOB__<path>__MIN/MAX` defines of narrowed sub-knob bounds and their name mangling;
  - the numbering of `knob_t`.
- **Enum validators** (`enum_validation.dfy`). The generated `ValidateEnumValue<Enum>`
  is either a `switch` over the members (sparse enums) or a range check with
  explicit gap rejections (dense enums). In both forms it accepts exactly the
  declared numbers.
- **Cached implementation** (`cached_implementation.dfy`). It covers:
  - which knobs get their own `ValidateKnobContent<Knob>`, and what that validator checks;
  - the proof that this validator accepts exactly the values the schema allows;
  - the `knob_data_t` descriptor table and its `KNOB_MAX` sentinel.
- **Profiles** (`profiles.dfy`). The class `ProfileMerger` holds the knobs' `value`
  fields as an array. For each profile, the emitter resets them, applies the CSV,
  and counts and lists the overrides in a table ending in `{KNOB_MAX, NULL}`. A
  directory of all profiles ends in `{NULL, 0}`.

Generated text is modelled by its structure rather than byte for byte:
- a validator is a `Switch`/`Range` value with a semantics `Accepts`;
- a table is a sequence of records;
- a C address is named by the knob it points into.

`common.dfy` holds `Option` (Python `None`, or an operation that raised) and
`WalkLength`, which is how C code sees a sentinel-terminated table. `schema.dfy`
holds the schema objects the generator reads.

The dense validator's gap loop is `range(lowest, highest)`, which leaves out
`highest`. That changes nothing, because `highest` is always declared.

## Model

| member | source | states |
|---|---|---|
| Dialect.TypeString | SetupDataPkg/Tools/KnobService.py:16-41 | Identity in generic C and for every name outside the table; in UEFI a table name becomes its UEFI spelling |
| Dialect.ValueString | SetupDataPkg/Tools/KnobService.py:45-51 | The result differs from the input exactly when UEFI and the input is `true`/`false`, and is then its upper-case spelling |
| Dialect.SpacingString | SetupDataPkg/Tools/KnobService.py:55-63 | Only blanks, 2·num in UEFI and 4·num in generic C; empty for num ≤ 0 (`range(0, num)` is empty) |
| Dialect.LineEnding | SetupDataPkg/Tools/KnobService.py:67-71 | `"\r\n"` in UEFI and `"\n"` in generic C |
| Dialect.IndexOf | SetupDataPkg/Tools/KnobService.py:78 | `re.search` of one character: the first index holding it, or none when it does not occur |
| Dialect.GuardName | SetupDataPkg/Tools/KnobService.py:76-83 | The UEFI guard macro is the name with each `.` replaced by `_` and every other character upper-cased, so it has no `.` and no lower-case letter |
| Dialect.ReplaceFirstDot | SetupDataPkg/Tools/KnobService.py:78-79 | One turn of the dot loop keeps the length and the final dot-free name, and leaves no dot up to the replaced one |
| Dialect.IncludeOnceStyle | SetupDataPkg/Tools/KnobService.py:75-87 | The dot-rewriting loop yields `#ifndef N`/`#define N` (opening) and `#endif // N` (closing) with the same guard `N`; generic C gives `#pragma once` or a bare line ending |
| Dialect.Rename | SetupDataPkg/Tools/KnobService.py:91-119 | The filter is the identity in generic C, and a UEFI type name never fails |
| Dialect.NamingConventionFilter | SetupDataPkg/Tools/KnobService.py:91-119 | The imperative filter, with its `re.search` loop, computes `Rename` |
| Dialect.RemoveUnderscores | SetupDataPkg/Tools/KnobService.py:115-117 | The underscore loop raises exactly when the name ends in `_`, and otherwise camel-cases it |
| Dialect.CamelCaseStep | SetupDataPkg/Tools/KnobService.py:116-117 | One loop turn preserves the camel-cased result and whether the name ends in `_` |
| Dialect.CamelCaseAfterUnderscore | SetupDataPkg/Tools/KnobService.py:117 | `_c` camel-cases as the upper-cased `c` |
| Dialect.CamelCaseHasNoUnderscore | SetupDataPkg/Tools/KnobService.py:115-117 | Camel-casing leaves no `_` |
| Dialect.CamelCaseKeepsPlainText | SetupDataPkg/Tools/KnobService.py:116 | A name without `_` is left alone when the loop stops |
| Dialect.CamelCaseOfPlainPrefix | SetupDataPkg/Tools/KnobService.py:116-117 | An underscore-free prefix passes through camel-casing unchanged |
| Dialect.FieldBaseEnd | SetupDataPkg/Tools/KnobService.py:108-113 | After capitalising and dropping one trailing `_`, the name still ends in `_` exactly when it ended in `__` |
| Dialect.RenamedFieldHasNoUnderscore | SetupDataPkg/Tools/KnobService.py:102-117 | A UEFI field name that is renamed contains no `_` |
| Dialect.RenameFieldFails | SetupDataPkg/Tools/KnobService.py:104-117 | A UEFI field name raises IndexError exactly for the empty name, `_`, or a name of three or more characters that ends in `__` |
| Dialect.RenameFieldCapitalizes | SetupDataPkg/Tools/KnobService.py:104-109 | A UEFI field name starts with the upper case of its first character after an optional leading `_`, when that character is not `_` |
| Dialect.RenamedTypeName | SetupDataPkg/Tools/KnobService.py:95-100 | A UEFI type name loses one trailing `_t` and each remaining character is the input's upper-cased; no lower-case letter is left, and renaming it again changes nothing |
| Dialect.UpperFacts | SetupDataPkg/Tools/KnobService.py:100 | Upper-casing leaves no lower-case letter, is idempotent, and keeps `_` and `.` both ways |
| Dialect.AssertStyle | SetupDataPkg/Tools/KnobService.py:123-127 | The result is the macro (`STATIC_ASSERT` in UEFI, else `C_ASSERT`), then the condition, then `, msg` (UEFI only), then `);` |
| Schema.FindEnum | SetupDataPkg/Tools/KnobService.py:573-575 | The validator name resolves to an enum of that name, or to none when no enum has it |
| PublicHeader.EnumPadding | SetupDataPkg/Tools/KnobService.py:163-188 | The padding is 0x7fffffff exactly when some member is negative, and 0xffffffff otherwise |
| PublicHeader.PaddingKeepsEnum32Bit | SetupDataPkg/Tools/KnobService.py:179-192 | For members that fit the enum's type (`uint32_t` when no member is negative, `int32_t` otherwise), the padding bounds every member and fits that type too |
| PublicHeader.DefineName | SetupDataPkg/Tools/KnobService.py:233 | A mangled define name has no `[`, `]` or `.` |
| PublicHeader.ReplaceCharAppend | SetupDataPkg/Tools/KnobService.py:233 | `str.replace` of one character distributes over concatenation |
| PublicHeader.DefineNameIsChainedReplace | SetupDataPkg/Tools/KnobService.py:233 | The three chained `replace` calls equal the one-pass mangling |
| PublicHeader.LeafDefinesExactly | SetupDataPkg/Tools/KnobService.py:232-241 | One sub-knob emits a define exactly for each leaf bound that differs from its format's |
| PublicHeader.BoundDefinesExactly | SetupDataPkg/Tools/KnobService.py:231-241 | A knob emits a MIN/MAX define exactly for each leaf bound that differs from its format's, with that bound's value |
| PublicHeader.Ordinal | SetupDataPkg/Tools/KnobService.py:267-271 | `KNOB_<name>` has the knob's schema index (numbering from 0), so an in-range knob is below the knob count, and `KNOB_MAX` equals the count |
| PublicHeader.OrdinalInjective | SetupDataPkg/Tools/KnobService.py:267-271 | Distinct `knob_t` members have distinct values, and only `KNOB_MAX` equals the knob count |
| PublicHeader.KnobBoundDefines | SetupDataPkg/Tools/KnobService.py:231-241 | The emitter's loop produces exactly `BoundDefines` of the sub-knobs, in order |
| EnumValidation.MinOf | SetupDataPkg/Tools/KnobService.py:459-465 | `lowest` is a declared number and bounds every number from below |
| EnumValidation.MaxOf | SetupDataPkg/Tools/KnobService.py:459-465 | `highest` is a declared number and bounds every number from above |
| EnumValidation.EnumBounds | SetupDataPkg/Tools/KnobService.py:459-465 | The bounds loop returns declared numbers that bound every member |
| EnumValidation.MinMaxUnique | SetupDataPkg/Tools/KnobService.py:459-465 | Declared bounds of every member are the minimum and maximum |
| EnumValidation.IsDeclared | SetupDataPkg/Tools/KnobService.py:505-509 | The inner search finds `i` exactly when it is a declared number |
| EnumValidation.GapsMembership | SetupDataPkg/Tools/KnobService.py:504-514 | The dense form rejects exactly the undeclared integers of `[lowest, highest)` |
| EnumValidation.GapsSize | SetupDataPkg/Tools/KnobService.py:504-514 | There are no more rejections than integers in the range |
| EnumValidation.GapList | SetupDataPkg/Tools/KnobService.py:504-514 | The gap loop emits exactly `Gaps`, in increasing order |
| EnumValidation.ValidatorAcceptsExactlyDeclared | SetupDataPkg/Tools/KnobService.py:458-517 | In both forms the generated validator accepts `x` if and only if `x` is a declared number |
| EnumValidation.ValidatorShape | SetupDataPkg/Tools/KnobService.py:475-514 | The switch form is chosen exactly when `highest - lowest > len(values)` and lists every member; the range form checks `[lowest, highest]` with at most one gap rejection per member |
| EnumValidation.SwitchLabelsDistinct | SetupDataPkg/Tools/KnobService.py:480-484 | The switch form's `case` labels are pairwise distinct exactly when the members' numbers are |
| EnumValidation.DuplicateNumberRepeatsLabel | SetupDataPkg/Tools/KnobService.py:475-484 | `{A = 0, B = 0, C = 10}` gets the switch form with the label 0 twice |
| EnumValidation.ContiguousEnum | SetupDataPkg/Tools/KnobService.py:489-517 | An enum without holes gets no gap rejections, accepts its whole interval and rejects both neighbours |
| EnumValidation.BuildEnumValidator | SetupDataPkg/Tools/KnobService.py:458-519 | The emitter raises exactly on an enum without members; otherwise its validator accepts exactly the declared numbers |
| EnumValidation.AcceptsAsWritten | SetupDataPkg/Tools/KnobService.py:475-514 | The generated validator as written: the switch form agrees with `Accepts`; the range form is `Accepts` of the value cast to the signed type of the target width |
| EnumValidation.DenseCastRejectsDeclaredMember | SetupDataPkg/Tools/KnobService.py:490-503 | As written, with a 32-bit cast the dense validator of an enum whose only member is 0x80000000 rejects that member; with a 64-bit cast it accepts it |
| EnumValidation.ToSigned | SetupDataPkg/Tools/KnobService.py:490-494 | The cast yields the value of the target's signed range congruent to the input modulo 2^32 or 2^64 (two's-complement wrap), so an input already in that range is unchanged |
| EnumValidation.CastHarmless | SetupDataPkg/Tools/KnobService.py:490-503 | When members and the value fit the cast's signed type, the validator as written agrees with `Accepts` |
| EnumValidation.CastHarmlessOnWideTargets | SetupDataPkg/Tools/KnobService.py:490-503 | With a 64-bit `INTN`, every value of a 32-bit enum survives the cast and the validator as written agrees with `Accepts` |
| CachedImplementation.DetectConstraint | SetupDataPkg/Tools/KnobService.py:540-551 | `constraint_present` is set exactly when some leaf has an enum format or a bound differing from its format's |
| CachedImplementation.PathOf | SetupDataPkg/Tools/KnobService.py:570 | The path is the sub-knob name after the knob's name: the knob name followed by the path gives back the sub-knob name; a shorter sub-knob name gives the empty path |
| CachedImplementation.BuildContentValidator | SetupDataPkg/Tools/KnobService.py:540-604 | A knob gets the no-constraints alias exactly when no leaf is constrained; otherwise it gets the checks of `ContentChecks`, in sub-knob order |
| CachedImplementation.AllPassConcat | SetupDataPkg/Tools/KnobService.py:568-596 | A sequence of `return false` checks passes exactly when both halves pass |
| CachedImplementation.EnumCheckExact | SetupDataPkg/Tools/KnobService.py:572-578 | An enum-leaf check passes exactly when the value is a declared member of the named enum |
| CachedImplementation.LeafChecksExact | SetupDataPkg/Tools/KnobService.py:568-593 | For a leaf in its type's range, its checks pass exactly when it holds a declared member or lies within its own bounds |
| CachedImplementation.ChecksPassExactly | SetupDataPkg/Tools/KnobService.py:568-596 | All checks of a knob pass exactly when every leaf is valid |
| CachedImplementation.ContentValidatorExact | SetupDataPkg/Tools/KnobService.py:523-604 | The knob's validator, alias or own function, accepts a buffer exactly when every leaf is valid |
| CachedImplementation.LeafChecksDeclared | SetupDataPkg/Tools/KnobService.py:580-593 | Each MIN/MAX check of a leaf names that leaf's define with its value |
| CachedImplementation.ChecksUseDeclaredDefines | SetupDataPkg/Tools/KnobService.py:568-593 | Every `KNOB__<x>__MIN/MAX` a validator compares against is defined by the public header, with the same value |
| CachedImplementation.ConstraintMatchesDefines | SetupDataPkg/Tools/KnobService.py:540-551 | For a knob without enum leaves, it has a validator of its own exactly when the public header emits a MIN/MAX define for it |
| CachedImplementation.NarrowedMaxOnly | SetupDataPkg/Tools/KnobService.py:568-596 | A scalar knob narrowed only at the top gets one MAX define and one MAX check, and accepts exactly the values up to the cap |
| CachedImplementation.DescriptorTableIndexedByKnob | SetupDataPkg/Tools/KnobService.py:608-654 | Entry `i` belongs to `knob_t` value `i`; a walk to `KNOB_MAX` visits every knob |
| CachedImplementation.DescriptorTable | SetupDataPkg/Tools/KnobService.py:608-654 | The table has `len(knobs) + 1` entries in schema order, each with the knob's type, name, `len(name) + 1`, namespace, attributes 7, zero statistics and its validator; the last entry is the NULL/zero sentinel |
| CachedImplementation.EnumValidators | SetupDataPkg/Tools/KnobService.py:458-519 | Every enum gets its validator in order; the loop raises exactly when some enum has no members |
| CachedImplementation.ContentValidators | SetupDataPkg/Tools/KnobService.py:540-605 | Every knob gets its content validator, in order |
| CachedImplementation.GenerateCachedImplementation | SetupDataPkg/Tools/KnobService.py:458-654 | The emitter raises exactly on an empty enum; otherwise every enum validator accepts exactly the declared numbers, every knob has its validator, and the descriptor table is well formed |
| Profiles.Merge | SetupDataPkg/Tools/KnobService.py:729-734 | After the reset and `read_csv`, a knob holds the profile's value exactly when the profile names it, and otherwise holds none |
| Profiles.Overridden | SetupDataPkg/Tools/KnobService.py:739-740 | The overridden knobs are listed in strictly increasing schema order; each holds a value, and each knob that holds a value is listed |
| Profiles.ValueIndicesSnoc | SetupDataPkg/Tools/KnobService.py:739-741 | Adding a knob adds its index to the overridden set exactly when it holds a value |
| Profiles.OverriddenCountsValues | SetupDataPkg/Tools/KnobService.py:736-741 | `override_count` is the number of knobs that hold a value |
| Profiles.OverrideCountIsNamedKnobs | SetupDataPkg/Tools/KnobService.py:729-741 | A profile's `override_count` is the number of schema knobs its CSV names |
| Profiles.OverrideTableTerminated | SetupDataPkg/Tools/KnobService.py:776-805 | The override array has `override_count + 1` entries, ends in `{KNOB_MAX, NULL}`, and is walked for exactly `override_count` entries; the struct and data have one item per override |
| Profiles.OverridesAreNamedKnobs | SetupDataPkg/Tools/KnobService.py:760-795 | The override entries are in ascending schema order; a knob has an entry pointing at its data exactly when the profile names it; each data initialiser carries the profile's value |
| Profiles.DirectoryShape | SetupDataPkg/Tools/KnobService.py:807-835 | The directory has `PROFILE_COUNT + 1` entries in input order, each naming its table and count, ending in `{NULL, 0}` and walked for exactly `PROFILE_COUNT` entries |
| Profiles.StructLoopAsWritten | SetupDataPkg/Tools/KnobService.py:736-744 | As written, the struct loop returns only when no knob holds a value, with a count of 0 |
| Profiles.StructLoopFailsOnAnyOverride | SetupDataPkg/Tools/KnobService.py:738-744 | As written, the struct loop raises exactly when some knob holds a value |
| Profiles.StructLoopFailsExample | SetupDataPkg/Tools/KnobService.py:738-744 | A one-knob profile that sets its knob makes the struct loop raise |
| Profiles.ProfileMerger.Reset | SetupDataPkg/Tools/KnobService.py:730-731 | Every knob's value becomes `None` |
| Profiles.ProfileMerger.ReadCsv | SetupDataPkg/Tools/KnobService.py:734 | Knobs the CSV names take its value; the others keep theirs |
| Profiles.ProfileMerger.CountOverrides | SetupDataPkg/Tools/KnobService.py:736-745 | Computes `override_count` and one struct member per overridden knob, in schema order |
| Profiles.ProfileMerger.DataInitialisers | SetupDataPkg/Tools/KnobService.py:760-764 | One initialiser per overridden knob, in schema order, carrying its value |
| Profiles.ProfileMerger.OverrideList | SetupDataPkg/Tools/KnobService.py:780-805 | One entry per overridden knob, in schema order, then the sentinel |
| Profiles.ProfileMerger.EmitProfile | SetupDataPkg/Tools/KnobService.py:726-807 | The knobs end up holding exactly the profile's values, and the table emitted is `ProfileTableOf(knobs, p)` whatever they held before |
| Profiles.ProfileMerger.GenerateProfiles | SetupDataPkg/Tools/KnobService.py:709-835 | One table per profile in input order, each independent of the profiles before it, and the directory of those tables |

## Left out

- File handling, `sys.argv`, `usage` and `main`: process and I/O plumbing. A profile is given by its base name, which the source takes from the path with `os.path`.
- The text of the headers is modelled by its structure, not byte for byte. Left out:
  - comments and banners;
  - `#pragma pack`;
  - the fixed typedefs of the public header (lines 273-374);
  - the struct definitions and their size asserts (lines 197-222, which need `size_in_bytes`);
  - the default- and cache-value structs (lines 401-456);
  - the accessor declarations and bodies (lines 244-263 and 656-706).
- `VariableList` is not part of this model. For it:
  - the schema objects are the datatypes of `schema.dfy`;
  - `read_csv` is a map from knob name to value;
  - `object_to_string` leaves values as strings, and MIN/MAX define values as integers;
  - `isinstance(..., EnumFormat)` is the `FormatKind` of a format.
- `format_guid` (lines 380-398): the namespace is kept as its string.
- `float` and `double` are type names passed through unchanged; no floating-point value is modelled.
- Dialect.Upper: upper-cases ASCII letters only. Python's `str.upper` also changes non-ASCII letters, some into several characters.
- Profiles.ProfileMerger.EmitProfile: runs the struct loop with the member line as evidently intended (see Findings), not as written.
- EnumValidation.Accepts: the validator semantics use mathematical integers. The `(int)`/`(INTN)` cast of the dense form is modelled separately, by `AcceptsAsWritten` (see Findings).
- EnumValidation.AcceptsAsWritten: compares the cast value with the bound literals over the integers, as C99 types a literal too large for `int` (GCC and Clang). Under MSVC's C90 rule `2147483648` is `unsigned long`, the comparison becomes unsigned and the member is accepted; that is not modelled.
- EnumValidation.ValidatorAcceptsExactlyDeclared: treats the switch form as the set of its labels. An enum with two members of one number, such as `{A = 0, B = 0, C = 10}`, gets a switch with a repeated `case` label, which a C compiler rejects; `SwitchLabelsDistinct` states when that happens, and the model does not reject it.
- CachedImplementation.ContentValidatorExact: assumes each scalar leaf already holds a value of its C type, i.e. lies within its format's bounds. A bound equal to its format's is not checked by the generated code.

## Findings

| source | as written | input that shows it | evidently intended | confidence | as-written member | corrected member |
|---|---|---|---|---|---|---|
| SetupDataPkg/Tools/KnobService.py:742-744 | `out.write(... .format(...), + get_line_ending(efi_type))` passes a second argument built by unary `+` on a string, which raises TypeError | any profile whose CSV sets any knob, e.g. one knob `enable` set to `true` | write one `<c type> <name>;` member per overridden knob | high, not executed | Profiles.StructLoopFailsOnAnyOverride | Profiles.ProfileMerger.CountOverrides |
| SetupDataPkg/Tools/KnobService.py:490-503 | the dense validator compares `(int)value` (`(INTN)value` in UEFI) against the bounds; where that type is 32 bits, a declared number of 2^31 or more becomes negative after the cast | enum `E` whose only member `A` is 0x80000000 (allowed: with no negative member the enum is unsigned 32-bit), built as generic C with GCC or Clang and a 32-bit `int`; the generated validator returns false for `E_A`. UEFI on X64 or AArch64 (64-bit `INTN`) and MSVC (unsigned bound literal) accept it | accept exactly the declared numbers | medium, not executed | EnumValidation.DenseCastRejectsDeclaredMember | EnumValidation.ValidatorAcceptsExactlyDeclared |
