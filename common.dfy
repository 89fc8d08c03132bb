/** Small shared vocabulary: optional values and the way generated C code walks a
    sentinel-terminated table. */
module Common {

  /** A value that may be absent: Python's `None`, or an operation that raised. */
  datatype Option<+T> = None | Some(value: T)

  /** The ranges of the C types `int32_t` and `uint32_t`. */
  predicate InInt32(x: int) { -0x8000_0000 <= x < 0x8000_0000 }
  predicate InUint32(x: int) { 0 <= x < 0x1_0000_0000 }

  /** The number of entries a consumer steps over before it meets the first
      terminator: how C code that walks a table "until the sentinel" sees it. */
  function WalkLength<T>(table: seq<T>, isEnd: T -> bool): (n: nat)
    ensures n <= |table|
    ensures n < |table| ==> isEnd(table[n])
    ensures forall i :: 0 <= i < n ==> !isEnd(table[i])
  {
    if table == [] || isEnd(table[0]) then 0 else 1 + WalkLength(table[1..], isEnd)
  }

  /** A table whose first terminator sits at index `n` is walked for `n` entries. */
  lemma WalkStopsAtFirstEnd<T>(table: seq<T>, isEnd: T -> bool, n: nat)
    requires n < |table| && isEnd(table[n])
    requires forall i :: 0 <= i < n ==> !isEnd(table[i])
    ensures WalkLength(table, isEnd) == n
  {
  }
}
