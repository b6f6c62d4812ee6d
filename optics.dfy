/** Lenses and prisms (Sources/UNILib/Lens+Prism.swift) and the lens pairing
    operator `<>` (Sources/UNILibCore/Operators.swift, with identical copies in
    Sources/Common/Reducer.swift and Sources/UNILib/Reducer.swift). */
module Optics {
  import opened Optionals

  /** A getter/setter pair focusing on a `Part` of a `Whole`. The source calls
      the setter `set`, a keyword here, so it is `put`. */
  datatype Lens<!W, !P> = Lens(get: W -> P, put: P -> W -> W) {

    /** `lift(_:)`: the lens that reaches this lens's part through `outer`. */
    function Lift<C>(outer: Lens<C, W>): Lens<C, P> {
      Lens(
        c => get(outer.get(c)),
        p => c => outer.put(put(p)(outer.get(c)))(c))
    }
  }

  /** A partial getter for one case of a sum type and the constructor of that case. */
  datatype Prism<!W, !P> = Prism(tryGet: W -> Option<P>, inject: P -> W)

  /** The lens laws: what you put is what you get ... */
  ghost predicate PutGet<W(!new), P(!new)>(l: Lens<W, P>) {
    forall w, p :: l.get(l.put(p)(w)) == p
  }

  /** ... putting back what you got changes nothing ... */
  ghost predicate GetPut<W(!new), P>(l: Lens<W, P>) {
    forall w :: l.put(l.get(w))(w) == w
  }

  /** ... and a second put overrides the first. */
  ghost predicate PutPut<W(!new), P(!new)>(l: Lens<W, P>) {
    forall w, p, q :: l.put(q)(l.put(p)(w)) == l.put(q)(w)
  }

  /** Writing through `l` leaves what `other` sees unchanged: the two lenses
      address disjoint parts of the whole. */
  ghost predicate Independent<W(!new), A(!new), B>(l: Lens<W, A>, other: Lens<W, B>) {
    forall w, a :: other.get(l.put(a)(w)) == other.get(w)
  }

  /** The prism laws: matching an injected value gives it back, and a
      successful match identifies the whole it came from. */
  ghost predicate Lawful<W(!new), P(!new)>(pr: Prism<W, P>) {
    && (forall p :: pr.tryGet(pr.inject(p)) == Some(p))
    && (forall w, p :: pr.tryGet(w) == Some(p) ==> pr.inject(p) == w)
  }

  /** Lens `<>`: a lens onto both parts at once. `get` reads both; `put` writes
      `rhs` first and `lhs` last. */
  function Paired<W, A, B>(lhs: Lens<W, A>, rhs: Lens<W, B>): Lens<W, (A, B)> {
    Lens(
      w => (lhs.get(w), rhs.get(w)),
      (ab: (A, B)) => (w: W) => lhs.put(ab.0)(rhs.put(ab.1)(w)))
  }

  /** `Optional.prism` (Sources/UNILib/Optional+Extensions.swift): matches
      `.some` and injects with `Optional.some`. */
  function OptionalPrism<T>(): Prism<Option<T>, T> {
    Prism(o => o, v => Some(v))
  }

  // ---------------------------------------------------------------------------
  // Lens-of-lens

  /** The lifted lens reads through `outer` then `inner`, and writes the
      updated inner part back into the outer part it came from. */
  lemma LiftAccessors<C, W, P>(inner: Lens<W, P>, outer: Lens<C, W>, c: C, p: P)
    ensures inner.Lift(outer).get(c) == inner.get(outer.get(c))
    ensures inner.Lift(outer).put(p)(c) == outer.put(inner.put(p)(outer.get(c)))(c)
  {
  }

  /** Lifting keeps the put-get law: both lenses lawful, so is the composite. */
  lemma LiftPreservesPutGet<C(!new), W(!new), P(!new)>(inner: Lens<W, P>, outer: Lens<C, W>)
    requires PutGet(inner) && PutGet(outer)
    ensures PutGet(inner.Lift(outer))
  {
    var l := inner.Lift(outer);
    forall c, p ensures l.get(l.put(p)(c)) == p {
      var w' := inner.put(p)(outer.get(c));
      assert outer.get(outer.put(w')(c)) == w';
    }
  }

  /** Lifting keeps the get-put law. */
  lemma LiftPreservesGetPut<C(!new), W(!new), P>(inner: Lens<W, P>, outer: Lens<C, W>)
    requires GetPut(inner) && GetPut(outer)
    ensures GetPut(inner.Lift(outer))
  {
    var l := inner.Lift(outer);
    forall c ensures l.put(l.get(c))(c) == c {
      var w := outer.get(c);
      assert inner.put(inner.get(w))(w) == w;
    }
  }

  /** Lifting keeps the put-put law when the outer lens is fully lawful. */
  lemma LiftPreservesPutPut<C(!new), W(!new), P(!new)>(inner: Lens<W, P>, outer: Lens<C, W>)
    requires PutPut(inner) && PutGet(outer) && PutPut(outer)
    ensures PutPut(inner.Lift(outer))
  {
    var l := inner.Lift(outer);
    forall c, p, q ensures l.put(q)(l.put(p)(c)) == l.put(q)(c) {
      var w1 := inner.put(p)(outer.get(c));
      var c1 := outer.put(w1)(c);
      assert outer.get(c1) == w1;
      assert inner.put(q)(w1) == inner.put(q)(outer.get(c));
      assert outer.put(inner.put(q)(w1))(c1) == outer.put(inner.put(q)(w1))(c);
    }
  }

  /** Lifting is associative: reaching `a` through `b` through `c` does not
      depend on the grouping. */
  lemma LiftAssociative<X, Y, Z, P>(a: Lens<Z, P>, b: Lens<Y, Z>, c: Lens<X, Y>, x: X, p: P)
    ensures a.Lift(b).Lift(c).get(x) == a.Lift(b.Lift(c)).get(x)
    ensures a.Lift(b).Lift(c).put(p)(x) == a.Lift(b.Lift(c)).put(p)(x)
  {
    var y := c.get(x);
    LiftAccessors(a.Lift(b), c, x, p);
    LiftAccessors(a, b, y, p);
    LiftAccessors(b, c, x, a.put(p)(b.get(y)));
    LiftAccessors(a, b.Lift(c), x, p);
  }

  // ---------------------------------------------------------------------------
  // Lens pairing

  /** On lawful lenses onto disjoint parts the pair lens is lawful: reading
      back after writing `(a, b)` gives `(a, b)`. */
  lemma PairedPutGet<W(!new), A(!new), B(!new)>(lhs: Lens<W, A>, rhs: Lens<W, B>)
    requires PutGet(lhs) && PutGet(rhs) && Independent(lhs, rhs)
    ensures PutGet(Paired(lhs, rhs))
  {
    var l := Paired(lhs, rhs);
    forall w, ab: (A, B) ensures l.get(l.put(ab)(w)) == ab {
      var w1 := rhs.put(ab.1)(w);
      assert rhs.get(lhs.put(ab.0)(w1)) == rhs.get(w1);
    }
  }

  /** Writing back both parts that were read leaves the whole unchanged. */
  lemma PairedGetPut<W(!new), A, B>(lhs: Lens<W, A>, rhs: Lens<W, B>)
    requires GetPut(lhs) && GetPut(rhs)
    ensures GetPut(Paired(lhs, rhs))
  {
    var l := Paired(lhs, rhs);
    forall w ensures l.put(l.get(w))(w) == w {
      var w1 := rhs.put(rhs.get(w))(w);
      assert w1 == w;
      assert lhs.put(lhs.get(w1))(w1) == w1;
    }
  }

  /** Because `rhs` is written first and `lhs` last, on two lenses onto the
      same part the left component wins: the pair lens then breaks put-get
      as soon as the two components differ. */
  lemma PairedLeftWins<W(!new), A(!new)>(l: Lens<W, A>, w: W, a: A, b: A)
    requires PutGet(l)
    ensures Paired(l, l).get(Paired(l, l).put((a, b))(w)) == (a, a)
  {
    assert l.get(l.put(a)(l.put(b)(w))) == a;
  }

  // ---------------------------------------------------------------------------
  // Prisms

  /** `Optional.prism` is lawful: it gives back what it injects, and it fails
      exactly on `.none`. */
  lemma OptionalPrismLawful<T(!new)>()
    ensures Lawful(OptionalPrism<T>())
    ensures OptionalPrism<T>().tryGet(None) == None
  {
  }
}
