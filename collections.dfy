/** Collection helpers (Sources/UNILibCore/Collection+Ext.swift): the
    `Occupiable` test, the integer middle of a closed range, the bounds-checked
    subscript, `Set.updated(with:)` and the dictionary subscript by raw value. */
module Collections {
  import opened Optionals

  /** `isNotEmpty`, shared by strings, arrays, dictionaries and sets through
      `Occupiable`; stated here for sequences (a string is a sequence of
      characters). */
  function IsNotEmpty<T>(xs: seq<T>): (r: bool)
    ensures r <==> xs != []
  {
    !(|xs| == 0)
  }

  /** `ClosedRange<Int>.middle`: `lower + (upper - lower) / 2`. A closed range
      always has `lower <= upper`, so the difference is non-negative and
      Swift's truncating division agrees with Dafny's. */
  function Middle(lower: int, upper: int): (r: int)
    requires lower <= upper
    ensures lower <= r <= upper
    ensures r - lower <= upper - r <= r - lower + 1
  {
    lower + (upper - lower) / 2
  }

  /** `self[safe: index]`: the element when `index` is a valid index, nil
      otherwise. */
  function SafeIndex<T>(xs: seq<T>, index: int): (r: Option<T>)
    ensures r.Some? <==> 0 <= index < |xs|
    ensures r.Some? ==> r.value == xs[index]
  {
    if 0 <= index < |xs| then Some(xs[index]) else None
  }

  /** `updated(with:)`: a copy of the set with `value` in it. The receiver is
      a value, so it is not changed. */
  function Updated<T>(s: set<T>, value: T): (r: set<T>)
    ensures value in r
    ensures s <= r
    ensures forall x :: x in r ==> x == value || x in s
  {
    s + {value}
  }

  /** `self[value]` for a `RawRepresentable` key with `String` raw values:
      the lookup by `value.rawValue`. The forced cast `as! Key` succeeds only
      when the dictionary's keys are strings, so the keys are strings here. */
  function LookupByRawValue<T, V>(d: map<string, V>, value: T, rawValue: T -> string): (r: Option<V>)
    ensures rawValue(value) in d ==> r == Some(d[rawValue(value)])
    ensures rawValue(value) !in d ==> r == None
  {
    if rawValue(value) in d then Some(d[rawValue(value)]) else None
  }

  /** Looking up after storing under a value's raw value finds what was
      stored; values with other raw values see the old dictionary; and two
      values with the same raw value look up the same entry. */
  lemma LookupByRawValueLaws<T, V>(d: map<string, V>, value: T, other: T, rawValue: T -> string, v: V)
    ensures LookupByRawValue(d[rawValue(value) := v], value, rawValue) == Some(v)
    ensures rawValue(other) != rawValue(value) ==>
      LookupByRawValue(d[rawValue(value) := v], other, rawValue) == LookupByRawValue(d, other, rawValue)
    ensures rawValue(other) == rawValue(value) ==>
      LookupByRawValue(d, other, rawValue) == LookupByRawValue(d, value, rawValue)
    ensures LookupByRawValue(d - {rawValue(value)}, value, rawValue) == None
  {
  }

  /** The safe subscript agrees with plain indexing on every valid index, and
      reading past either end gives nil instead of trapping. */
  lemma SafeIndexAgrees<T>(xs: seq<T>, ys: seq<T>, i: int)
    ensures 0 <= i < |xs| ==> SafeIndex(xs + ys, i) == SafeIndex(xs, i)
    ensures SafeIndex(xs, -1) == None && SafeIndex(xs, |xs|) == None
    ensures IsNotEmpty(xs) <==> SafeIndex(xs, 0).Some?
  {
  }

  /** Updating is idempotent and does not depend on the order of updates. */
  lemma UpdatedLaws<T>(s: set<T>, a: T, b: T)
    ensures Updated(Updated(s, a), a) == Updated(s, a)
    ensures Updated(Updated(s, a), b) == Updated(Updated(s, b), a)
    ensures a in s ==> Updated(s, a) == s
  {
  }
}
