/** Swift's `Optional` and the helpers the library adds to it
    (Sources/UNILib/Optional+Extensions.swift). */
module Optionals {

  /** Swift's `Optional<Wrapped>`: `.none` or `.some(value)`. */
  datatype Option<T> = None | Some(value: T) {

    /** `flatMap` of the standard library: binds the wrapped value. */
    function FlatMap<U>(f: T -> Option<U>): (r: Option<U>)
      ensures None? ==> r == None
      ensures Some? ==> r == f(value)
    {
      match this
      case None => None
      case Some(v) => f(v)
    }

    /** `isNil`: true exactly for `.none`. */
    predicate IsNil() {
      match this
      case None => true
      case Some(_) => false
    }

    /** `isNotNil` is defined as `!isNil`. */
    predicate IsNotNil() {
      !IsNil()
    }

    /** `mapNil(f)`: replaces `.none` by `.some(f())`, keeps a present value. */
    function MapNil(f: () -> T): (r: Option<T>)
      ensures r.Some?
      ensures Some? ==> r == this
      ensures None? ==> r.value == f()
    {
      match this
      case None => Some(f())
      case Some(_) => this
    }

    /** `flatMapNil(f)`: replaces `.none` by `f()`, keeps a present value. */
    function FlatMapNil(f: () -> Option<T>): (r: Option<T>)
      ensures Some? ==> r == this
      ensures None? ==> r == f()
    {
      match this
      case None => f()
      case Some(_) => this
    }

    /** `or(default)`: the wrapped value, or `default` when absent (`self ?? default`). */
    function Or(default: T): (r: T)
      ensures Some? ==> r == value
      ensures None? ==> r == default
    {
      match this
      case None => default
      case Some(v) => v
    }
  }

  /** What the callbacks given to `do` observe: the callback ran with a value,
      or the rollback closure ran. */
  datatype Callback<T> = Ran(argument: T) | RolledBack

  /** `do(f, rollback)`: returns `self` unchanged; calls `f` with the wrapped
      value when there is one, otherwise calls `rollback` if one was given.
      The callbacks are effects, so the model returns the calls they receive;
      the one-argument overload of `do` is the case `hasRollback == false`. */
  function Do<T>(o: Option<T>, hasRollback: bool): (r: (Option<T>, seq<Callback<T>>))
    ensures r.0 == o
    ensures o.Some? ==> r.1 == [Ran(o.value)]
    ensures o.None? ==> r.1 == [] || r.1 == [RolledBack]
    ensures RolledBack in r.1 <==> o.None? && hasRollback
  {
    match o
    case Some(v) => (o, [Ran(v)])
    case None => (o, if hasRollback then [RolledBack] else [])
  }

  /** `mapNil` always gives a value; a second `mapNil` never runs its
      closure; and it is `flatMapNil` of a closure returning a value. */
  lemma MapNilLaws<T>(o: Option<T>, f: () -> T, g: () -> T)
    ensures o.MapNil(f).IsNotNil()
    ensures o.MapNil(f).MapNil(g) == o.MapNil(f)
    ensures o.MapNil(f) == o.FlatMapNil(() => Some(f()))
    ensures o.MapNil(f).value == o.Or(f())
  {
  }

  /** `flatMapNil` with a closure returning nil changes nothing; the result
      is nil only when both are; and chaining two is one `flatMapNil` of the
      chained closures. */
  lemma FlatMapNilLaws<T>(o: Option<T>, f: () -> Option<T>, g: () -> Option<T>)
    ensures o.FlatMapNil(() => None) == o
    ensures o.FlatMapNil(f).IsNil() <==> o.IsNil() && f().IsNil()
    ensures o.FlatMapNil(f).FlatMapNil(g) == o.FlatMapNil(() => f().FlatMapNil(g))
  {
  }

  /** `or(d)` is the value `mapNil` with the constant `d` wraps: it ignores
      `d` exactly when a value is present. */
  lemma OrLaws<T>(o: Option<T>, d: T)
    ensures o.Or(d) == o.MapNil(() => d).value
    ensures o == Some(o.Or(d)) <==> o.IsNotNil()
    ensures o.IsNil() ==> o.Or(d) == d
  {
  }

  /** `isNil` and `isNotNil` are complementary, and `isNil` tells the two
      cases apart: it is `false` exactly when `or` ignores its default. */
  lemma NilTests<T>(o: Option<T>, d: T)
    ensures o.IsNil() <==> o == None
    ensures o.IsNotNil() <==> o.Some?
    ensures o.IsNotNil() ==> o.MapNil(() => d) == o && o.Or(d) == o.value
    ensures o.IsNil() ==> o.MapNil(() => d) == Some(d) && o.Or(d) == d
  {
  }
}
