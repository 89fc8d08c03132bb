/** The enum range validator of the generated implementation header
    (KnobService.py lines 458-519): per enum, either an exhaustive `switch` over the
    declared members (sparse enums) or a range check with explicit rejection of the
    gaps (dense enums). */
module EnumValidation {
  import opened Common
  import opened Schema

  /** The generated validator, abstracted from its text. `Switch` returns true on
      each listed case and false otherwise; `Range` rejects values below `lo`, above
      `hi` and equal to any of `gaps`, and accepts the rest. */
  datatype Validator = Switch(cases: seq<int>) | Range(lo: int, hi: int, gaps: seq<int>)

  /** What the generated validator returns for the value `x`. */
  predicate Accepts(v: Validator, x: int)
  {
    match v
    case Switch(cases) => x in cases
    case Range(lo, hi, gaps) => lo <= x <= hi && x !in gaps
  }

  function MinOf(s: seq<int>): (m: int)
    requires |s| > 0
    ensures m in s && forall i :: 0 <= i < |s| ==> m <= s[i]
  {
    if |s| == 1 then s[0]
    else
      var m := MinOf(s[..|s| - 1]);
      assert forall i :: 0 <= i < |s| - 1 ==> s[..|s| - 1][i] == s[i];
      if s[|s| - 1] < m then s[|s| - 1] else m
  }

  function MaxOf(s: seq<int>): (m: int)
    requires |s| > 0
    ensures m in s && forall i :: 0 <= i < |s| ==> s[i] <= m
  {
    if |s| == 1 then s[0]
    else
      var m := MaxOf(s[..|s| - 1]);
      assert forall i :: 0 <= i < |s| - 1 ==> s[..|s| - 1][i] == s[i];
      if s[|s| - 1] > m then s[|s| - 1] else m
  }

  /** The integers of `[lo, hi)` that are not declared, in increasing order: the
      `if (numeric_value == i) return false;` lines of the dense form. */
  function Gaps(lo: int, hi: int, nums: seq<int>): seq<int>
    decreases hi - lo
  {
    if hi <= lo then []
    else Gaps(lo, hi - 1, nums) + (if hi - 1 in nums then [] else [hi - 1])
  }

  lemma {:induction false} GapsMembership(lo: int, hi: int, nums: seq<int>, x: int)
    ensures x in Gaps(lo, hi, nums) <==> lo <= x < hi && x !in nums
    decreases hi - lo
  {
    if lo < hi {
      GapsMembership(lo, hi - 1, nums, x);
    }
  }

  lemma {:induction false} GapsSize(lo: int, hi: int, nums: seq<int>)
    ensures |Gaps(lo, hi, nums)| <= if hi <= lo then 0 else hi - lo
    decreases hi - lo
  {
    if lo < hi {
      GapsSize(lo, hi - 1, nums);
    }
  }

  /** The validator the generator emits for an enum; `None` for an enum without
      members, on which `enum.values[0]` raises IndexError. */
  function ValidatorOf(e: EnumDef): Option<Validator>
  {
    if e.values == [] then None
    else
      var nums := Numbers(e);
      var lo := MinOf(nums);
      var hi := MaxOf(nums);
      if hi - lo > |e.values| then Some(Switch(nums))
      else Some(Range(lo, hi, Gaps(lo, hi, nums)))
  }

  /** In both forms, the validator accepts exactly the declared numbers. */
  lemma ValidatorAcceptsExactlyDeclared(e: EnumDef, x: int)
    requires e.values != []
    ensures Accepts(ValidatorOf(e).value, x) <==> x in Numbers(e)
  {
    var nums := Numbers(e);
    var lo, hi := MinOf(nums), MaxOf(nums);
    if ValidatorOf(e).value.Range? {
      GapsMembership(lo, hi, nums, x);
      if x in nums {
        var k :| 0 <= k < |nums| && nums[k] == x;
        assert lo <= x <= hi;
      }
    }
  }

  /** The sparse form is chosen exactly when the span exceeds the member count; the
      dense form then checks `[lowest, highest]`. Either way the generated code has
      at most one comparison per declared member, plus the two range checks. */
  lemma ValidatorShape(e: EnumDef)
    requires e.values != []
    ensures var v := ValidatorOf(e).value;
      var lo, hi := MinOf(Numbers(e)), MaxOf(Numbers(e));
      && (v.Switch? <==> hi - lo > |e.values|)
      && (v.Switch? ==> v.cases == Numbers(e))
      && (v.Range? ==> v.lo == lo && v.hi == hi && |v.gaps| <= |e.values|)
  {
    var lo, hi := MinOf(Numbers(e)), MaxOf(Numbers(e));
    GapsSize(lo, hi, Numbers(e));
  }

  /** The switch form has one `case` label per member, so its labels are pairwise
      distinct exactly when the members' numbers are; two members with one number
      give a repeated label, which a C compiler rejects. */
  lemma SwitchLabelsDistinct(e: EnumDef)
    requires e.values != [] && ValidatorOf(e).value.Switch?
    ensures var cases := ValidatorOf(e).value.cases;
      (forall i, j :: 0 <= i < j < |cases| ==> cases[i] != cases[j]) <==>
      (forall i, j :: 0 <= i < j < |e.values| ==> e.values[i].number != e.values[j].number)
  {
    ValidatorShape(e);
  }

  /** `{A = 0, B = 0, C = 10}` is sparse, and its switch repeats the label 0. */
  lemma DuplicateNumberRepeatsLabel()
    ensures var e := EnumDef("E", "", [EnumValue("A", 0, ""), EnumValue("B", 0, ""), EnumValue("C", 10, "")]);
      ValidatorOf(e) == Some(Switch([0, 0, 10]))
  {
    var e := EnumDef("E", "", [EnumValue("A", 0, ""), EnumValue("B", 0, ""), EnumValue("C", 10, "")]);
    assert Numbers(e) == [0, 0, 10];
  }

  /** An enum that declares every integer of `[lowest, highest]` gets no gap
      rejections, accepts that whole interval and rejects `lowest - 1` and
      `highest + 1`. */
  lemma ContiguousEnum(e: EnumDef)
    requires e.values != []
    requires var nums := Numbers(e); forall x :: MinOf(nums) <= x <= MaxOf(nums) ==> x in nums
    ensures var v := ValidatorOf(e).value; var lo, hi := MinOf(Numbers(e)), MaxOf(Numbers(e));
      && (v.Range? ==> v.gaps == [])
      && (forall x :: lo <= x <= hi ==> Accepts(v, x))
      && !Accepts(v, lo - 1) && !Accepts(v, hi + 1)
  {
    var nums := Numbers(e);
    var lo, hi := MinOf(nums), MaxOf(nums);
    var gaps := Gaps(lo, hi, nums);
    if gaps != [] {
      GapsMembership(lo, hi, nums, gaps[0]);
    }
    ValidatorAcceptsExactlyDeclared(e, lo - 1);
    ValidatorAcceptsExactlyDeclared(e, hi + 1);
    forall x | lo <= x <= hi ensures Accepts(ValidatorOf(e).value, x) {
      ValidatorAcceptsExactlyDeclared(e, x);
    }
  }

  /** The first loop of the validator emitter: `lowest_value` and `highest_value`
      start at the first member and follow every member. */
  method EnumBounds(e: EnumDef) returns (lowest: int, highest: int)
    requires e.values != []
    ensures lowest in Numbers(e) && highest in Numbers(e)
    ensures forall i :: 0 <= i < |e.values| ==> lowest <= e.values[i].number <= highest
  {
    var nums := Numbers(e);
    lowest, highest := e.values[0].number, e.values[0].number;
    var i := 0;
    while i < |e.values|
      invariant 0 <= i <= |e.values|
      invariant lowest in nums && highest in nums
      invariant forall k :: 0 <= k < i ==> lowest <= nums[k] <= highest
    {
      if e.values[i].number < lowest {
        lowest := e.values[i].number;
      }
      if e.values[i].number > highest {
        highest := e.values[i].number;
      }
      i := i + 1;
    }
  }

  /** The inner search of the gap loop: `found` is set, and the loop left, at the
      first member whose number is `n`. */
  method IsDeclared(e: EnumDef, n: int) returns (found: bool)
    ensures found <==> n in Numbers(e)
  {
    found := false;
    var j := 0;
    while j < |e.values|
      invariant 0 <= j <= |e.values|
      invariant !found
      invariant forall k :: 0 <= k < j ==> e.values[k].number != n
    {
      if e.values[j].number == n {
        assert Numbers(e)[j] == n;
        found := true;
        break;
      }
      j := j + 1;
    }
  }

  lemma MinMaxUnique(s: seq<int>, lo: int, hi: int)
    requires lo in s && hi in s && forall i :: 0 <= i < |s| ==> lo <= s[i] <= hi
    ensures MinOf(s) == lo && MaxOf(s) == hi
  {
  }

  /** The gap loop of the dense form: one rejection per undeclared integer of
      `[lowest, highest)`, in increasing order. */
  method GapList(e: EnumDef, lowest: int, highest: int) returns (gaps: seq<int>)
    requires lowest <= highest
    ensures gaps == Gaps(lowest, highest, Numbers(e))
  {
    gaps := [];
    var n := lowest;
    while n < highest
      invariant lowest <= n <= highest
      invariant gaps == Gaps(lowest, n, Numbers(e))
    {
      var found := IsDeclared(e, n);
      if !found {
        gaps := gaps + [n];
      }
      n := n + 1;
    }
  }

  /** The validator emitter for one enum: bounds, then the strategy, then for the
      dense form the gap rejections. */
  method BuildEnumValidator(e: EnumDef) returns (r: Option<Validator>)
    ensures r == ValidatorOf(e)
    ensures r.None? <==> e.values == []
    ensures r.Some? ==> forall x :: Accepts(r.value, x) <==> x in Numbers(e)
  {
    if |e.values| == 0 {
      return None;
    }
    var lowest, highest := EnumBounds(e);
    MinMaxUnique(Numbers(e), lowest, highest);
    if highest - lowest > |e.values| {
      r := Some(Switch(Numbers(e)));
    } else {
      var gaps := GapList(e, lowest, highest);
      r := Some(Range(lowest, highest, gaps));
    }
    forall x ensures Accepts(r.value, x) <==> x in Numbers(e) {
      ValidatorAcceptsExactlyDeclared(e, x);
    }
  }

  // ---------------------------------------------------------------------------
  // The `(int)value` cast of the dense form
  // ---------------------------------------------------------------------------

  /** The width of the type the dense form casts to: `int` in generic C, `INTN` in
      UEFI. It is 32 bits for generic C on the usual ABIs and for UEFI on IA32 and
      ARM, and 64 bits for UEFI on X64 and AArch64. */
  datatype IntWidth = Bits32 | Bits64

  predicate InSigned(x: int, w: IntWidth)
  {
    match w
    case Bits32 => -0x8000_0000 <= x < 0x8000_0000
    case Bits64 => -0x8000_0000_0000_0000 <= x < 0x8000_0000_0000_0000
  }

  /** The cast in two's complement: the value of the target width congruent to `x`. */
  function ToSigned(x: int, w: IntWidth): (n: int)
    ensures InSigned(n, w)
    ensures InSigned(x, w) ==> n == x
    ensures (x - n) % (if w == Bits32 then 0x1_0000_0000 else 0x1_0000_0000_0000_0000) == 0
  {
    match w
    case Bits32 =>
      var m := x % 0x1_0000_0000;
      if m >= 0x8000_0000 then m - 0x1_0000_0000 else m
    case Bits64 =>
      var m := x % 0x1_0000_0000_0000_0000;
      if m >= 0x8000_0000_0000_0000 then m - 0x1_0000_0000_0000_0000 else m
  }

  /** What the generated C validator returns, as written: the dense form first
      converts the enum value to the signed type of width `w` and compares that with
      the bounds and gaps. The comparison is taken over the integers, as C99 types a
      bound literal too large for `int` (GCC and Clang give it a wider signed type). */
  predicate AcceptsAsWritten(v: Validator, x: int, w: IntWidth)
    ensures v.Switch? ==> (AcceptsAsWritten(v, x, w) <==> Accepts(v, x))
    ensures v.Range? ==> (AcceptsAsWritten(v, x, w) <==> Accepts(v, ToSigned(x, w)))
  {
    match v
    case Switch(cases) => x in cases
    case Range(lo, hi, gaps) => var n := ToSigned(x, w); lo <= n <= hi && n !in gaps
  }

  /** An enum whose only member is 0x80000000 gets the dense form. With a 32-bit
      cast that form rejects its one declared member; with a 64-bit cast it accepts
      it. */
  lemma DenseCastRejectsDeclaredMember()
    ensures var e := EnumDef("E", "", [EnumValue("A", 0x8000_0000, "")]);
      && ValidatorOf(e) == Some(Range(0x8000_0000, 0x8000_0000, []))
      && 0x8000_0000 in Numbers(e)
      && !AcceptsAsWritten(ValidatorOf(e).value, 0x8000_0000, Bits32)
      && AcceptsAsWritten(ValidatorOf(e).value, 0x8000_0000, Bits64)
  {
    var e := EnumDef("E", "", [EnumValue("A", 0x8000_0000, "")]);
    assert Numbers(e) == [0x8000_0000];
    assert ToSigned(0x8000_0000, Bits32) == -0x8000_0000;
  }

  /** When every member and the tested value fit the cast's signed type, the cast is
      harmless and the generated code agrees with `Accepts`. */
  lemma CastHarmless(e: EnumDef, x: int, w: IntWidth)
    requires e.values != []
    requires forall i :: 0 <= i < |e.values| ==> InSigned(e.values[i].number, w)
    requires InSigned(x, w)
    ensures AcceptsAsWritten(ValidatorOf(e).value, x, w) <==> Accepts(ValidatorOf(e).value, x)
  {
    assert ToSigned(x, w) == x;
  }

  /** On a 64-bit target every value of a 32-bit enum survives the cast, so the
      generated code agrees with `Accepts`. */
  lemma CastHarmlessOnWideTargets(e: EnumDef, x: int)
    requires e.values != []
    requires forall i :: 0 <= i < |e.values| ==> -0x8000_0000 <= e.values[i].number < 0x1_0000_0000
    requires -0x8000_0000 <= x < 0x1_0000_0000
    ensures AcceptsAsWritten(ValidatorOf(e).value, x, Bits64) <==> Accepts(ValidatorOf(e).value, x)
  {
    CastHarmless(e, x, Bits64);
  }
}
