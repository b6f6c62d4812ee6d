/** `Either` and `Loadable` (Sources/UNILibCore/Wrappers/Loadable.swift; the
    same API is in Sources/UNILib/Loadable.swift, where the error payload is
    the `Error` existential instead of a type parameter). The `Float`
    progress is a `real` here. */
module Loadables {
  import opened Optionals
  import opened Optics

  /** `Either<A, B>`: `.left(value:)` or `.right(value:)`. */
  datatype Either<A, B> = Left(a: A) | Right(b: B) {

    /** `isRight`. */
    predicate IsRight() {
      match this
      case Right(_) => true
      case _ => false
    }

    /** `isLeft`. */
    predicate IsLeft() {
      match this
      case Left(_) => true
      case _ => false
    }

    /** `left`: the left payload, nil on a right value. */
    function LeftValue(): (r: Option<A>)
      ensures r.Some? <==> IsLeft()
      ensures r.Some? ==> this == Left(r.value)
    {
      match this
      case Left(x) => Some(x)
      case Right(_) => None
    }

    /** `right`: the right payload, nil on a left value. */
    function RightValue(): (r: Option<B>)
      ensures r.Some? <==> IsRight()
      ensures r.Some? ==> this == Right(r.value)
    {
      match this
      case Left(_) => None
      case Right(x) => Some(x)
    }
  }

  /** The case tests exclude each other, and exactly one accessor is non-nil. */
  lemma EitherAccessorsExclusive<A, B>(e: Either<A, B>)
    ensures e.IsRight() == !e.IsLeft()
    ensures e.LeftValue().Some? != e.RightValue().Some?
  {
  }

  /** `Loadable<T, Error>`. */
  datatype Loadable<T, E> = Item(item: T) | Loading(progress: real) | Empty | Error(error: E) {

    /** `map(transform)`: transforms an item, keeps every other case as it is. */
    function Map<U>(f: T -> U): (r: Loadable<U, E>)
      ensures r.Item? <==> Item?
      ensures Item? ==> r.item == f(item)
      ensures Loading? ==> r == Loading(progress)
      ensures Empty? ==> r == Empty
      ensures Error? ==> r == Error(error)
    {
      match this
      case Empty => Empty
      case Error(e) => Error(e)
      case Item(x) => Item(f(x))
      case Loading(p) => Loading(p)
    }

    /** `flatMap(transform)`: binds an item, keeps every other case as it is. */
    function FlatMap<U>(f: T -> Loadable<U, E>): (r: Loadable<U, E>)
      ensures Item? ==> r == f(item)
      ensures Loading? ==> r == Loading(progress)
      ensures Empty? ==> r == Empty
      ensures Error? ==> r == Error(error)
    {
      match this
      case Empty => Empty
      case Error(e) => Error(e)
      case Item(x) => f(x)
      case Loading(p) => Loading(p)
    }
  }

  /** `indefiniteLoading`: loading with no progress. */
  function IndefiniteLoading<T, E>(): (r: Loadable<T, E>)
    ensures r.Loading? && r.progress == 0.0
  {
    Loading(0.0)
  }

  /** `map` is a functor: it keeps the identity and distributes over composition. */
  lemma MapFunctor<T, U, V, E>(l: Loadable<T, E>, f: T -> U, g: U -> V)
    ensures l.Map(x => x) == l
    ensures l.Map(f).Map(g) == l.Map(x => g(f(x)))
    ensures l.Map(f).Item? == l.Item? && l.Map(f).Loading? == l.Loading?
  {
  }

  /** `flatMap` is a monad bind with `.item` as unit, and `map f` is `flatMap`
      of `.item ∘ f`. */
  lemma FlatMapMonad<T, U, V, E>(l: Loadable<T, E>, x: T, f: T -> Loadable<U, E>, g: U -> Loadable<V, E>, h: T -> U)
    ensures Item(x).FlatMap(f) == f(x)
    ensures l.FlatMap(y => Item(y)) == l
    ensures l.FlatMap(f).FlatMap(g) == l.FlatMap(y => f(y).FlatMap(g))
    ensures l.Map(h) == l.FlatMap(y => Item(h(y)))
  {
  }

  // ---------------------------------------------------------------------------
  // aggregatingProgressIgnoringErrors

  /** `compactMap` of the `.loading` progresses. */
  function LoadingProgresses<V, E>(ls: seq<Loadable<V, E>>): seq<real>
    decreases |ls|
  {
    if ls == [] then []
    else (if ls[0].Loading? then [ls[0].progress] else []) + LoadingProgresses(ls[1..])
  }

  /** The `map` step: loading stays, an item counts as finished, anything else
      as `indefiniteLoading`. */
  function Pseudo<V, E>(l: Loadable<V, E>): (r: Loadable<V, E>)
    ensures r.Loading?
  {
    match l
    case Loading(_) => l
    case Item(_) => Loading(1.0)
    case _ => IndefiniteLoading()
  }

  function MapPseudo<V, E>(ls: seq<Loadable<V, E>>): (r: seq<Loadable<V, E>>)
    ensures |r| == |ls|
    ensures forall i :: 0 <= i < |ls| ==> r[i] == Pseudo(ls[i])
  {
    seq(|ls|, i requires 0 <= i < |ls| => Pseudo(ls[i]))
  }

  /** `reduce(0.0) { acc, elem in acc + elem / n }`. */
  function FoldProgress(acc: real, xs: seq<real>, n: real): real
    requires n != 0.0
    decreases |xs|
  {
    if xs == [] then acc else FoldProgress(acc + xs[0] / n, xs[1..], n)
  }

  /** `compactMap` of the items, in input order. */
  function Items<V, E>(ls: seq<Loadable<V, E>>): seq<V>
    decreases |ls|
  {
    if ls == [] then []
    else (if ls[0].Item? then [ls[0].item] else []) + Items(ls[1..])
  }

  /** `aggregatingProgressIgnoringErrors(_:)`. */
  function Aggregate<V, E>(ls: seq<Loadable<V, E>>): Loadable<seq<V>, E> {
    if |LoadingProgresses(ls)| > 0 then
      var pseudo := LoadingProgresses(MapPseudo(ls));
      Loading(FoldProgress(0.0, pseudo, |pseudo| as real))
    else
      Item(Items(ls))
  }

  /** The weight an element carries in the aggregated progress. */
  function Weight<V, E>(l: Loadable<V, E>): real {
    match l
    case Loading(p) => p
    case Item(_) => 1.0
    case _ => 0.0
  }

  function SumWeights<V, E>(ls: seq<Loadable<V, E>>): real
    decreases |ls|
  {
    if ls == [] then 0.0 else Weight(ls[0]) + SumWeights(ls[1..])
  }

  function Sum(xs: seq<real>): real
    decreases |xs|
  {
    if xs == [] then 0.0 else xs[0] + Sum(xs[1..])
  }

  lemma {:induction false} LoadingProgressesEmpty<V, E>(ls: seq<Loadable<V, E>>)
    ensures LoadingProgresses(ls) == [] <==> forall i :: 0 <= i < |ls| ==> !ls[i].Loading?
    decreases |ls|
  {
    if ls != [] {
      LoadingProgressesEmpty(ls[1..]);
      assert forall i :: 1 <= i < |ls| ==> ls[i] == ls[1..][i - 1];
    }
  }

  /** Every element of the mapped list is loading, so the progresses are the
      elements' weights, one per element. */
  lemma {:induction false} PseudoProgresses<V, E>(ls: seq<Loadable<V, E>>)
    ensures |LoadingProgresses(MapPseudo(ls))| == |ls|
    ensures Sum(LoadingProgresses(MapPseudo(ls))) == SumWeights(ls)
    decreases |ls|
  {
    if ls != [] {
      assert MapPseudo(ls)[1..] == MapPseudo(ls[1..]);
      PseudoProgresses(ls[1..]);
    }
  }

  lemma {:induction false} FoldProgressIsMean(acc: real, xs: seq<real>, n: real)
    requires n != 0.0
    ensures FoldProgress(acc, xs, n) == acc + Sum(xs) / n
    decreases |xs|
  {
    if xs != [] {
      FoldProgressIsMean(acc + xs[0] / n, xs[1..], n);
    }
  }

  lemma {:induction false} SumWeightsBounds<V, E>(ls: seq<Loadable<V, E>>)
    requires forall i :: 0 <= i < |ls| && ls[i].Loading? ==> 0.0 <= ls[i].progress <= 1.0
    ensures 0.0 <= SumWeights(ls) <= |ls| as real
    decreases |ls|
  {
    if ls != [] {
      assert forall i :: 0 <= i < |ls| - 1 ==> ls[1..][i] == ls[i + 1];
      SumWeightsBounds(ls[1..]);
    }
  }

  /** If any element is loading, the aggregate is loading and its progress is
      the mean weight of all elements: items count 1, empty and error 0, a
      loading element its own progress. With progresses in `[0, 1]` the mean
      is in `[0, 1]` too. */
  lemma AggregateLoading<V, E>(ls: seq<Loadable<V, E>>)
    requires exists i :: 0 <= i < |ls| && ls[i].Loading?
    ensures Aggregate(ls).Loading?
    ensures Aggregate(ls).progress == SumWeights(ls) / |ls| as real
    ensures (forall i :: 0 <= i < |ls| && ls[i].Loading? ==> 0.0 <= ls[i].progress <= 1.0) ==>
      0.0 <= Aggregate(ls).progress <= 1.0
  {
    LoadingProgressesEmpty(ls);
    PseudoProgresses(ls);
    var pseudo := LoadingProgresses(MapPseudo(ls));
    FoldProgressIsMean(0.0, pseudo, |pseudo| as real);
    if forall i :: 0 <= i < |ls| && ls[i].Loading? ==> 0.0 <= ls[i].progress <= 1.0 {
      SumWeightsBounds(ls);
      MeanBounds(SumWeights(ls), |ls| as real);
    }
  }

  lemma MeanBounds(s: real, n: real)
    requires n > 0.0 && 0.0 <= s <= n
    ensures 0.0 <= s / n <= 1.0
  {
  }

  /** With no loading element the aggregate is the items in input order
      (empty and error elements dropped); an empty input gives no items. */
  lemma AggregateItems<V, E>(ls: seq<Loadable<V, E>>)
    requires forall i :: 0 <= i < |ls| ==> !ls[i].Loading?
    ensures Aggregate(ls) == Item(Items(ls))
    ensures Aggregate<V, E>([]) == Item([])
  {
    LoadingProgressesEmpty(ls);
  }

  /** The collected items are exactly the item payloads: collecting a
      concatenation concatenates, and a single element contributes its item
      or nothing. */
  lemma {:induction false} ItemsAppend<V, E>(xs: seq<Loadable<V, E>>, ys: seq<Loadable<V, E>>)
    ensures Items(xs + ys) == Items(xs) + Items(ys)
    decreases |xs|
  {
    if xs != [] {
      assert (xs + ys)[0] == xs[0] && (xs + ys)[1..] == xs[1..] + ys;
      ItemsAppend(xs[1..], ys);
    } else {
      assert xs + ys == ys;
    }
  }

  lemma {:induction false} ItemsMembership<V, E>(ls: seq<Loadable<V, E>>, v: V)
    ensures v in Items(ls) <==> exists i :: 0 <= i < |ls| && ls[i] == Item(v)
    decreases |ls|
  {
    if ls != [] {
      ItemsMembership(ls[1..], v);
      assert forall i :: 0 <= i < |ls| - 1 ==> ls[1..][i] == ls[i + 1];
      if ls[0] != Item(v) && exists i :: 0 <= i < |ls| && ls[i] == Item(v) {
        var i :| 0 <= i < |ls| && ls[i] == Item(v);
        assert ls[1..][i - 1] == Item(v);
      }
    }
  }

  // ---------------------------------------------------------------------------
  // The prisms the enum template generates. `Loadable` carries the
  // template's `prism` annotation; `Either` is annotated `Prism`, so its two
  // prisms show the shape the template gives a two-case enum.

  function LeftPrism<A, B>(): Prism<Either<A, B>, A> {
    Prism((e: Either<A, B>) => e.LeftValue(), (x: A) => Left(x))
  }

  function RightPrism<A, B>(): Prism<Either<A, B>, B> {
    Prism((e: Either<A, B>) => e.RightValue(), (x: B) => Right(x))
  }

  function ItemPrism<T, E>(): Prism<Loadable<T, E>, T> {
    Prism((l: Loadable<T, E>) => if l.Item? then Some(l.item) else None, (x: T) => Item(x))
  }

  function LoadingPrism<T, E>(): Prism<Loadable<T, E>, real> {
    Prism((l: Loadable<T, E>) => if l.Loading? then Some(l.progress) else None, (p: real) => Loading(p))
  }

  /** A case without a payload gives a prism onto `()`. */
  function EmptyPrism<T, E>(): Prism<Loadable<T, E>, ()> {
    Prism((l: Loadable<T, E>) => if l.Empty? then Some(()) else None, (u: ()) => Empty)
  }

  function ErrorPrism<T, E>(): Prism<Loadable<T, E>, E> {
    Prism((l: Loadable<T, E>) => if l.Error? then Some(l.error) else None, (x: E) => Error(x))
  }

  /** Every generated prism gives back what it injects, identifies the value
      it matched, and matches its own case only. */
  lemma GeneratedPrismsLawful<A(!new), B(!new), T(!new), E(!new)>(e: Either<A, B>, l: Loadable<T, E>)
    ensures Lawful(LeftPrism<A, B>()) && Lawful(RightPrism<A, B>())
    ensures Lawful(ItemPrism<T, E>()) && Lawful(LoadingPrism<T, E>())
    ensures Lawful(EmptyPrism<T, E>()) && Lawful(ErrorPrism<T, E>())
    ensures LeftPrism<A, B>().tryGet(e).Some? <==> e.Left?
    ensures RightPrism<A, B>().tryGet(e).Some? <==> e.Right?
    ensures ItemPrism<T, E>().tryGet(l).Some? <==> l.Item?
    ensures LoadingPrism<T, E>().tryGet(l).Some? <==> l.Loading?
    ensures EmptyPrism<T, E>().tryGet(l).Some? <==> l.Empty?
    ensures ErrorPrism<T, E>().tryGet(l).Some? <==> l.Error?
  {
    forall u: () ensures EmptyPrism<T, E>().tryGet(EmptyPrism<T, E>().inject(u)) == Some(u) {
      assert u == ();
    }
  }
}
