/** Application and composition operators: `|>`, `map` and `<*>`
    (Sources/UNILibCore/Operators.swift; the same functions are in
    Sources/UNILib/Reducer.swift, and `map`/`<*>` in Sources/Common/Reducer.swift).
    `<*>` only calls `map` with the same arguments, so `Compose` and
    `ComposeOptional` stand for both spellings. The third `|>` overload,
    `x |> f` with `f` returning an optional, is `Pipe` at an optional result type. */
module Operators {
  import opened Optionals

  /** `x |> f`: applies `f` to `x`. */
  function Pipe<I, O>(x: I, f: I -> O): O {
    f(x)
  }

  /** `x |> f` on an optional `x`: `x.flatMap(f)`. */
  function PipeOptional<I, O>(x: Option<I>, f: I -> Option<O>): (r: Option<O>)
    ensures x == None ==> r == None
    ensures x.Some? ==> r == f(x.value)
  {
    x.FlatMap(f)
  }

  /** `map(lhs, rhs)` (and `lhs <*> rhs`): `lhs` first, then `rhs`. */
  function Compose<I, O, O2>(lhs: I -> O, rhs: O -> O2): I -> O2 {
    x => rhs(lhs(x))
  }

  /** The optional `map(lhs, rhs)` (and `<*>`): `lhs(x).flatMap(rhs)`. */
  function ComposeOptional<I, O, O2>(lhs: I -> Option<O>, rhs: O -> Option<O2>): I -> Option<O2> {
    x => lhs(x).FlatMap(rhs)
  }

  /** Piping into a composition is piping twice: `x |> map(f, g) == (x |> f) |> g`,
      so the left-associative `|>` and the composition agree. */
  lemma PipeThroughCompose<I, O, O2>(x: I, f: I -> O, g: O -> O2)
    ensures Pipe(x, Compose(f, g)) == Pipe(Pipe(x, f), g)
    ensures Compose(f, g)(x) == g(f(x))
  {
  }

  /** Composition is associative (the operator is declared right-associative,
      and grouping does not change the function). */
  lemma ComposeAssociative<A, B, C, D>(f: A -> B, g: B -> C, h: C -> D, x: A)
    ensures Compose(f, Compose(g, h))(x) == Compose(Compose(f, g), h)(x)
  {
  }

  /** The optional composition short-circuits to nil when `lhs` gives nil, and
      otherwise hands the value to `rhs`. */
  lemma ComposeOptionalShortCircuits<I, O, O2>(lhs: I -> Option<O>, rhs: O -> Option<O2>, x: I)
    ensures lhs(x) == None ==> ComposeOptional(lhs, rhs)(x) == None
    ensures lhs(x).Some? ==> ComposeOptional(lhs, rhs)(x) == rhs(lhs(x).value)
    ensures ComposeOptional(lhs, rhs)(x) == PipeOptional(lhs(x), rhs)
  {
  }

  /** Piping an optional twice is piping it into the optional composition,
      and piping into `.some` gives the optional back. */
  lemma PipeOptionalLaws<I, O, O2>(x: Option<I>, f: I -> Option<O>, g: O -> Option<O2>)
    ensures PipeOptional(PipeOptional(x, f), g) == PipeOptional(x, ComposeOptional(f, g))
    ensures PipeOptional(x, (v: I) => Some(v)) == x
    ensures PipeOptional(x, f).Some? ==> x.Some?
  {
  }

  /** The optional composition is associative, and wrapping in `.some` is its
      identity on both sides. */
  lemma ComposeOptionalLaws<A, B, C, D>(f: A -> Option<B>, g: B -> Option<C>, h: C -> Option<D>, x: A)
    ensures ComposeOptional(f, ComposeOptional(g, h))(x) == ComposeOptional(ComposeOptional(f, g), h)(x)
    ensures ComposeOptional((a: A) => Some(a), f)(x) == f(x)
    ensures ComposeOptional(f, (b: B) => Some(b))(x) == f(x)
  {
    assert Some(x).FlatMap(f) == f(x);
  }
}
