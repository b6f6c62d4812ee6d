/** The product wrappers of Sources/Common/Pair.swift: `Pair` with its
    `map`/`flatMap`, and `Three`. Both compare componentwise, which is what
    Dafny's structural equality on datatypes does. */
module Pairs {

  datatype Pair<A, B> = Pair(left: A, right: B)
  {
    /** `map(_:)`: applies `t` to both components. */
    function Map<C>(t: (A, B) -> C): (r: C)
      ensures r == t(left, right)
    {
      t(left, right)
    }

    /** `flatMap(_:)`: a pair built from the tuple `transform` returns. */
    function FlatMap<C, D>(transform: (A, B) -> (C, D)): (r: Pair<C, D>)
      ensures r == FromTuple(transform(left, right))
    {
      FromTuple(transform(left, right))
    }

    /** The tuple with the same components. */
    function ToTuple(): (t: (A, B))
      ensures t.0 == left && t.1 == right
    {
      (left, right)
    }
  }

  /** `init(_ tuple:)`. */
  function FromTuple<A, B>(tuple: (A, B)): (p: Pair<A, B>)
    ensures p.left == tuple.0 && p.right == tuple.1
  {
    Pair(tuple.0, tuple.1)
  }

  datatype Three<A, B, C> = Three(a: A, b: B, c: C)

  /** A pair and its tuple determine each other. */
  lemma TupleRoundTrip<A, B>(p: Pair<A, B>, t: (A, B))
    ensures FromTuple(p.ToTuple()) == p
    ensures FromTuple(t).ToTuple() == t
  {
  }

  /** `flatMap` with the function that returns its arguments is the identity,
      and two `flatMap`s are one `flatMap` of the composed transform. */
  lemma FlatMapLaws<A, B, C, D, E, F>(p: Pair<A, B>, f: (A, B) -> (C, D), g: (C, D) -> (E, F))
    ensures p.FlatMap((x: A, y: B) => (x, y)) == p
    ensures p.FlatMap(f).FlatMap(g) == p.FlatMap((x: A, y: B) => g(f(x, y).0, f(x, y).1))
  {
  }

  /** `map` after `flatMap` is one `map` of the composed function. */
  lemma MapAfterFlatMap<A, B, C, D, E>(p: Pair<A, B>, f: (A, B) -> (C, D), h: (C, D) -> E)
    ensures p.FlatMap(f).Map(h) == p.Map((x: A, y: B) => h(f(x, y).0, f(x, y).1))
  {
  }

  /** The synthesised `Equatable` conformances: equal exactly when every
      component is equal. */
  lemma Componentwise<A, B, C>(p: Pair<A, B>, q: Pair<A, B>, s: Three<A, B, C>, t: Three<A, B, C>)
    ensures p == q <==> p.left == q.left && p.right == q.right
    ensures s == t <==> s.a == t.a && s.b == t.b && s.c == t.c
  {
  }
}
