/** The reducer algebra: `Reducer`, its monoid `<>`/`empty`, and the three
    `lift` overloads (Sources/UNILibCore/Reducer.swift; the same code is in
    Sources/Common/Reducer.swift and Sources/UNILib/Reducer.swift). */
module Reducers {
  import opened Optionals
  import opened Optics

  /** A pure state transition `(State, Action) -> State`. */
  datatype Reducer<!S, !A> = Reducer(reduce: (S, A) -> S)

  /** `lhs <> rhs`: both reducers see the same action, `rhs` sees the state `lhs` produced. */
  function Combine<S, A>(lhs: Reducer<S, A>, rhs: Reducer<S, A>): Reducer<S, A> {
    Reducer((s, a) => rhs.reduce(lhs.reduce(s, a), a))
  }

  /** `empty`: returns the state it is given. */
  function Empty<S, A>(): Reducer<S, A> {
    Reducer((s, _) => s)
  }

  /** `lift(localStateLens:)`: runs on the part the lens reads, writes the result back. */
  function LiftState<G, S, A>(r: Reducer<S, A>, lens: Lens<G, S>): Reducer<G, A> {
    Reducer((g, a) => lens.put(r.reduce(lens.get(g), a))(g))
  }

  /** `lift(localActionPrism:)`: runs on the local action when the prism matches,
      otherwise returns the state unchanged. */
  function LiftAction<S, GA, A>(r: Reducer<S, A>, prism: Prism<GA, A>): Reducer<S, GA> {
    Reducer((s, ga) =>
      match prism.tryGet(ga)
      case Some(a) => r.reduce(s, a)
      case None => s)
  }

  /** `lift(localStateLens:localActionPrism:)`: no change on a mismatch; on a
      match, reduces the lens's part with the local action and writes it back. */
  function Lift<G, GA, S, A>(r: Reducer<S, A>, lens: Lens<G, S>, prism: Prism<GA, A>): Reducer<G, GA> {
    Reducer((g, ga) =>
      match prism.tryGet(ga)
      case Some(a) => lens.put(r.reduce(lens.get(g), a))(g)
      case None => g)
  }

  /** Two reducers that agree on every state and action. */
  ghost predicate Equivalent<S(!new), A(!new)>(r1: Reducer<S, A>, r2: Reducer<S, A>) {
    forall s, a :: r1.reduce(s, a) == r2.reduce(s, a)
  }

  // ---------------------------------------------------------------------------
  // The monoid laws claimed by `extension Reducer: Monoid`

  /** `empty` is a left and a right identity of `<>`. */
  lemma EmptyIsIdentity<S(!new), A(!new)>(r: Reducer<S, A>)
    ensures Equivalent(Combine(Empty(), r), r)
    ensures Equivalent(Combine(r, Empty()), r)
  {
  }

  /** `<>` is associative, so a chain of reducers needs no parentheses. */
  lemma CombineAssociative<S(!new), A(!new)>(r1: Reducer<S, A>, r2: Reducer<S, A>, r3: Reducer<S, A>)
    ensures Equivalent(Combine(Combine(r1, r2), r3), Combine(r1, Combine(r2, r3)))
  {
  }

  /** Order matters: `<>` threads the state left to right. With a reducer that
      adds one and one that doubles, `add <> double` and `double <> add` differ. */
  lemma CombineOrderMatters()
    ensures Combine(Reducer((s: int, a: ()) => s + 1), Reducer((s: int, a: ()) => 2 * s)).reduce(0, ()) == 2
    ensures Combine(Reducer((s: int, a: ()) => 2 * s), Reducer((s: int, a: ()) => s + 1)).reduce(0, ()) == 1
  {
  }

  // ---------------------------------------------------------------------------
  // Lifting through a lens

  /** Through a lens obeying put-get, the part the lens addresses afterwards is
      exactly the local reduction of the part before. */
  lemma LiftStateFocus<G(!new), S(!new), A>(r: Reducer<S, A>, lens: Lens<G, S>, g: G, a: A)
    requires PutGet(lens)
    ensures lens.get(LiftState(r, lens).reduce(g, a)) == r.reduce(lens.get(g), a)
  {
  }

  /** Everything another lens sees through an independent part is untouched:
      a lifted counter reducer leaves the flag alone, and vice versa. */
  lemma LiftStateFrame<G(!new), S(!new), T, A>(r: Reducer<S, A>, lens: Lens<G, S>, other: Lens<G, T>, g: G, a: A)
    requires Independent(lens, other)
    ensures other.get(LiftState(r, lens).reduce(g, a)) == other.get(g)
  {
  }

  /** Lifting `empty` gives `empty` when the lens obeys get-put. */
  lemma LiftStateEmpty<G(!new), S, A(!new)>(lens: Lens<G, S>)
    requires GetPut(lens)
    ensures Equivalent(LiftState(Empty<S, A>(), lens), Empty())
  {
  }

  /** Lifting distributes over `<>` when the lens obeys put-get and put-put:
      lifting the combination equals combining the lifts. */
  lemma LiftStateDistributes<G(!new), S(!new), A(!new)>(r1: Reducer<S, A>, r2: Reducer<S, A>, lens: Lens<G, S>)
    requires PutGet(lens) && PutPut(lens)
    ensures Equivalent(LiftState(Combine(r1, r2), lens), Combine(LiftState(r1, lens), LiftState(r2, lens)))
  {
    forall g, a
      ensures LiftState(Combine(r1, r2), lens).reduce(g, a)
           == Combine(LiftState(r1, lens), LiftState(r2, lens)).reduce(g, a)
    {
      var s1 := r1.reduce(lens.get(g), a);
      var g1 := lens.put(s1)(g);
      assert lens.get(g1) == s1;
      assert lens.put(r2.reduce(s1, a))(g1) == lens.put(r2.reduce(s1, a))(g);
    }
  }

  // ---------------------------------------------------------------------------
  // Lifting through a prism

  /** With a lawful prism, the lifted reducer runs the local reducer on every
      action the prism injects, returns the state unchanged on an action the
      prism does not match, and changes the state only for an action that is
      the injection of some local action, by running the local reducer on it. */
  lemma LiftActionMatchOrPass<S, GA(!new), A(!new)>(r: Reducer<S, A>, prism: Prism<GA, A>, s: S, ga: GA, a: A)
    requires Lawful(prism)
    ensures LiftAction(r, prism).reduce(s, prism.inject(a)) == r.reduce(s, a)
    ensures prism.tryGet(ga) == None ==> LiftAction(r, prism).reduce(s, ga) == s
    ensures LiftAction(r, prism).reduce(s, ga) != s ==>
      exists a' :: prism.inject(a') == ga && LiftAction(r, prism).reduce(s, ga) == r.reduce(s, a')
  {
    if LiftAction(r, prism).reduce(s, ga) != s {
      var a' := prism.tryGet(ga).value;
      assert prism.inject(a') == ga;
    }
  }

  /** For any prism, lawful or not, the lifted reducer is decided by
      `tryGet` alone: a global action it extracts `a` from is reduced as `a`,
      any other leaves the state as it was. */
  lemma LiftActionByTryGet<S, GA, A>(r: Reducer<S, A>, prism: Prism<GA, A>, s: S, ga: GA, a: A)
    ensures prism.tryGet(ga) == Some(a) ==> LiftAction(r, prism).reduce(s, ga) == r.reduce(s, a)
    ensures prism.tryGet(ga) == None ==> LiftAction(r, prism).reduce(s, ga) == s
  {
  }

  /** Lifting through a prism distributes over `<>` and keeps `empty`. */
  lemma LiftActionHomomorphism<S(!new), GA(!new), A>(r1: Reducer<S, A>, r2: Reducer<S, A>, prism: Prism<GA, A>)
    ensures Equivalent(LiftAction(Combine(r1, r2), prism), Combine(LiftAction(r1, prism), LiftAction(r2, prism)))
    ensures Equivalent(LiftAction(Empty<S, A>(), prism), Empty())
  {
  }

  // ---------------------------------------------------------------------------
  // Lifting through both

  /** The combined lift is the prism lift of the lens lift. It is also the lens
      lift of the prism lift when the lens obeys get-put, which is what makes a
      mismatch leave the global state untouched either way. */
  lemma LiftIsBothLifts<G(!new), GA(!new), S, A>(r: Reducer<S, A>, lens: Lens<G, S>, prism: Prism<GA, A>)
    ensures Equivalent(Lift(r, lens, prism), LiftAction(LiftState(r, lens), prism))
    ensures GetPut(lens) ==> Equivalent(Lift(r, lens, prism), LiftState(LiftAction(r, prism), lens))
  {
  }

  /** On a lawful lens and prism, the combined lift focuses like the lens lift
      on injected actions, and is a no-op on actions the prism does not match. */
  lemma LiftFocus<G(!new), GA(!new), S(!new), A(!new)>(r: Reducer<S, A>, lens: Lens<G, S>, prism: Prism<GA, A>, g: G, ga: GA, a: A)
    requires PutGet(lens) && Lawful(prism)
    ensures lens.get(Lift(r, lens, prism).reduce(g, prism.inject(a))) == r.reduce(lens.get(g), a)
    ensures prism.tryGet(ga) == None ==> Lift(r, lens, prism).reduce(g, ga) == g
  {
  }

  /** For any lens and prism, lawful or not: an action `tryGet` extracts `a`
      from acts as the lens lift of `a`, and any other leaves the global
      state as it was. */
  lemma LiftByTryGet<G, GA, S, A>(r: Reducer<S, A>, lens: Lens<G, S>, prism: Prism<GA, A>, g: G, ga: GA, a: A)
    ensures prism.tryGet(ga) == Some(a) ==> Lift(r, lens, prism).reduce(g, ga) == LiftState(r, lens).reduce(g, a)
    ensures prism.tryGet(ga) == None ==> Lift(r, lens, prism).reduce(g, ga) == g
  {
  }
}
