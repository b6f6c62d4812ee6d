/** The free helper functions (Sources/Common/FreeFunctions.swift; the same
    helpers are in Sources/UNILib/FreeFunctions.swift). */
module FreeFunctions {
  import opened Optionals
  import opened Arithmetic

  /** `compactMap(_:)`: the present values, in order. */
  function CompactMap<T>(input: seq<Option<T>>): seq<T>
    decreases |input|
  {
    if input == [] then []
    else (if input[0].Some? then [input[0].value] else []) + CompactMap(input[1..])
  }

  /** `notNil(_:)`. */
  function NotNil<E>(input: Option<E>): (r: bool)
    ensures r <==> input.Some?
  {
    input.IsNotNil()
  }

  /** `isNil(_:)`. */
  function IsNil<E>(input: Option<E>): (r: bool)
    ensures r <==> input == None
  {
    input.IsNil()
  }

  /** `identity(_:)`. */
  function Identity<T>(item: T): T {
    item
  }

  /** `identityOp(_:)`: wraps its argument. */
  function IdentityOp<T>(item: T): Option<T> {
    Some(item)
  }

  /** `isTrue(_:)`: `input == true`. */
  function IsTrue(input: bool): bool {
    input == true
  }

  /** `isFalse(_:)`: `input == false`. */
  function IsFalse(input: bool): bool {
    input == false
  }

  /** `toArray(_:)`. */
  function ToArray<E>(item: E): seq<E> {
    [item]
  }

  /** `zip2(_:_:)`: both values, or nil as soon as one is missing. */
  function Zip2<A, B>(v1: Option<A>, v2: Option<B>): (r: Option<(A, B)>)
    ensures r.Some? <==> v1.Some? && v2.Some?
    ensures r.Some? ==> r.value == (v1.value, v2.value)
  {
    v1.FlatMap((x1: A) => v2.FlatMap((x2: B) => Some((x1, x2))))
  }

  /** `zip3(_:_:_:)`: all three values, or nil as soon as one is missing. */
  function Zip3<A, B, C>(v1: Option<A>, v2: Option<B>, v3: Option<C>): (r: Option<(A, B, C)>)
    ensures r.Some? <==> v1.Some? && v2.Some? && v3.Some?
    ensures r.Some? ==> r.value == (v1.value, v2.value, v3.value)
  {
    v1.FlatMap((x1: A) => v2.FlatMap((x2: B) => v3.FlatMap((x3: C) => Some((x1, x2, x3)))))
  }

  /** The one-line helpers return their argument wrapped as their names say,
      and the nil tests are complementary. */
  lemma TrivialHelpers<T>(x: T, o: Option<T>, b: bool)
    ensures Identity(x) == x && IdentityOp(x) == Some(x) && ToArray(x) == [x]
    ensures IsTrue(b) == b && IsFalse(b) == !b && IsTrue(b) != IsFalse(b)
    ensures NotNil(o) == !IsNil(o)
  {
  }

  /** `zip3` is `zip2` nested: zipping the first two, then the third. */
  lemma Zip3IsNestedZip2<A, B, C>(v1: Option<A>, v2: Option<B>, v3: Option<C>)
    ensures Zip3(v1, v2, v3).Some? == Zip2(Zip2(v1, v2), v3).Some?
    ensures Zip3(v1, v2, v3).Some? ==>
      var t := Zip2(Zip2(v1, v2), v3).value; Zip3(v1, v2, v3).value == (t.0.0, t.0.1, t.1)
  {
  }

  // ---------------------------------------------------------------------------
  // compactMap

  /** A value survives `compactMap` exactly when it was present in the input. */
  lemma {:induction false} CompactMapMembership<T>(input: seq<Option<T>>, x: T)
    ensures x in CompactMap(input) <==> Some(x) in input
    decreases |input|
  {
    if input != [] {
      CompactMapMembership(input[1..], x);
      assert input == [input[0]] + input[1..];
    }
  }

  /** `compactMap` keeps the order: it maps concatenation to concatenation. */
  lemma {:induction false} CompactMapAppend<T>(xs: seq<Option<T>>, ys: seq<Option<T>>)
    ensures CompactMap(xs + ys) == CompactMap(xs) + CompactMap(ys)
    decreases |xs|
  {
    if xs == [] {
      assert xs + ys == ys;
    } else {
      assert (xs + ys)[0] == xs[0] && (xs + ys)[1..] == xs[1..] + ys;
      CompactMapAppend(xs[1..], ys);
    }
  }

  /** Wrapping every element with `identityOp` and compacting gives the
      elements back, so nothing present is ever dropped. */
  lemma {:induction false} CompactMapOfPresent<T>(xs: seq<T>)
    ensures CompactMap(seq(|xs|, i requires 0 <= i < |xs| => IdentityOp(xs[i]))) == xs
    decreases |xs|
  {
    if xs != [] {
      var wrapped := seq(|xs|, i requires 0 <= i < |xs| => IdentityOp(xs[i]));
      assert wrapped[1..] == seq(|xs[1..]|, i requires 0 <= i < |xs[1..]| => IdentityOp(xs[1..][i]));
      CompactMapOfPresent(xs[1..]);
      assert xs == [xs[0]] + xs[1..];
    }
  }

  // ---------------------------------------------------------------------------
  // resample

  /** `resample(array:toSize:)`: an empty input gives `[]`; otherwise element
      `i` of the `newSize` outputs is `items[i * size / newSize]`. The source
      builds the range `0 ..< newSize`, which traps for a negative size on a
      non-empty array, hence the precondition. */
  function Resample<T>(items: seq<T>, newSize: int): (r: seq<T>)
    requires |items| == 0 || newSize >= 0
    ensures |items| == 0 ==> r == []
    ensures |items| > 0 ==> |r| == newSize
    ensures |items| > 0 ==> forall i :: 0 <= i < newSize ==> r[i] == items[SourceIndex(i, |items|, newSize)]
  {
    if |items| == 0 then []
    else
      seq(newSize, i requires 0 <= i < newSize => items[SourceIndex(i, |items|, newSize)])
  }

  /** The index output `i` is read from; it is always in bounds. */
  function SourceIndex(i: nat, size: nat, newSize: int): (r: nat)
    requires i < newSize && size > 0
    ensures r < size
  {
    IndexInBounds(i, size, newSize);
    i * size / newSize
  }

  lemma IndexInBounds(i: nat, size: nat, newSize: int)
    requires i < newSize && size > 0
    ensures i * size / newSize < size
  {
    DivMod(i * size, newSize);
    var q := i * size / newSize;
    assert (newSize - i) * size > 0;
    assert i * size < newSize * size;
    MulCancelLt(q, size, newSize);
  }

  /** Resampling keeps the order of the input: later outputs come from
      positions no earlier than those of earlier outputs. */
  lemma SourceIndexMonotone(i: nat, j: nat, size: nat, newSize: int)
    requires i <= j < newSize && size > 0
    ensures SourceIndex(i, size, newSize) <= SourceIndex(j, size, newSize)
  {
    assert (j - i) * size >= 0;
    var x, y := i * size, j * size;
    DivMod(x, newSize);
    DivMod(y, newSize);
    var a, b := x / newSize, y / newSize;
    assert newSize * a <= x <= y < newSize * b + newSize;
    assert newSize * (a - b) == newSize * a - newSize * b;
    MulCancelLt(a - b, 1, newSize);
  }

  /** Resampling to the array's own size gives the array back. */
  lemma ResampleToOwnSize<T>(items: seq<T>)
    ensures Resample(items, |items|) == items
  {
    if |items| > 0 {
      forall i | 0 <= i < |items| ensures Resample(items, |items|)[i] == items[i] {
        DivUnique(i * |items|, |items|, i);
      }
    }
  }

  /** Stretching by a whole factor `k` repeats every element `k` times in
      place: output `i` is input `i / k`. */
  lemma ResampleRepeats<T>(items: seq<T>, k: nat, i: nat)
    requires |items| > 0 && k > 0 && i < k * |items|
    ensures Resample(items, k * |items|)[i] == items[i / k]
  {
    var n := |items|;
    DivMod(i, k);
    var q := i / k;
    assert k * q <= i < k * q + k;
    assert (k * n) * q <= i * n < (k * n) * q + k * n by {
      MulLeq(k * q, i, n);
      MulLt(i, k * q + k, n);
    }
    DivUnique(i * n, k * n, q);
  }

  /** Shrinking by a whole factor `k` keeps every `k`-th element, from the
      first one on. */
  lemma ResampleDecimates<T>(items: seq<T>, k: nat, m: nat, i: nat)
    requires k > 0 && |items| == k * m && i < m
    ensures Resample(items, m)[i] == items[i * k]
  {
    assert i * (k * m) == m * (i * k);
    DivUnique(i * (k * m), m, i * k);
  }

  lemma MulLeq(a: int, b: int, n: nat)
    requires a <= b
    ensures a * n <= b * n
  {
  }

  lemma MulLt(a: int, b: int, n: nat)
    requires a < b && n > 0
    ensures a * n < b * n
  {
  }

  // ---------------------------------------------------------------------------
  // recursively

  /** A target together with what `children` returns for it, all the way down. */
  datatype Tree<T> = Node(value: T, children: seq<Tree<T>>)

  /** `recursively(operation:on:children:)`: the targets `operation` is
      called on, in call order. */
  function Recursively<T>(t: Tree<T>): seq<T>
    decreases t, 1
  {
    [t.value] + RecursivelyAll(t.children)
  }

  /** The `forEach` over the children. */
  function RecursivelyAll<T>(ts: seq<Tree<T>>): seq<T>
    decreases ts, 0
  {
    if ts == [] then [] else Recursively(ts[0]) + RecursivelyAll(ts[1..])
  }

  function Size<T>(t: Tree<T>): nat
    decreases t, 1
  {
    1 + SizeAll(t.children)
  }

  function SizeAll<T>(ts: seq<Tree<T>>): nat
    decreases ts, 0
  {
    if ts == [] then 0 else Size(ts[0]) + SizeAll(ts[1..])
  }

  /** The same traversal with an explicit stack of pending subtrees: pop one,
      visit it, push its children in front of the rest. */
  function Preorder<T>(stack: seq<Tree<T>>): seq<T>
    decreases SizeAll(stack)
  {
    if stack == [] then []
    else
      SizeAllAppend(stack[0].children, stack[1..]);
      assert SizeAll(stack) == 1 + SizeAll(stack[0].children) + SizeAll(stack[1..]);
      [stack[0].value] + Preorder(stack[0].children + stack[1..])
  }

  lemma {:induction false} SizeAllAppend<T>(xs: seq<Tree<T>>, ys: seq<Tree<T>>)
    ensures SizeAll(xs + ys) == SizeAll(xs) + SizeAll(ys)
    decreases |xs|
  {
    if xs == [] {
      assert xs + ys == ys;
    } else {
      assert (xs + ys)[0] == xs[0] && (xs + ys)[1..] == xs[1..] + ys;
      SizeAllAppend(xs[1..], ys);
    }
  }

  /** The recursive traversal visits in pre-order: the same order as the
      explicit-stack traversal, one call per node, the target first. */
  lemma RecursivelyIsPreorder<T>(t: Tree<T>)
    ensures Recursively(t) == Preorder([t])
    ensures |Recursively(t)| == Size(t)
    ensures Recursively(t)[0] == t.value
  {
    PreorderOfForest([t], []);
    assert [t] + [] == [t];
    assert RecursivelyAll([t]) == Recursively(t) + RecursivelyAll<T>([]);
    CountAll([t]);
    assert SizeAll([t]) == Size(t) + SizeAll<T>([]);
  }

  /** Traversing a forest in front of a stack is traversing the forest, then
      the stack. */
  lemma {:induction false} PreorderOfForest<T>(ts: seq<Tree<T>>, rest: seq<Tree<T>>)
    ensures Preorder(ts + rest) == RecursivelyAll(ts) + Preorder(rest)
    decreases SizeAll(ts)
  {
    if ts == [] {
      assert ts + rest == rest;
    } else {
      var t := ts[0];
      assert (ts + rest)[0] == t && (ts + rest)[1..] == ts[1..] + rest;
      assert t.children + (ts[1..] + rest) == (t.children + ts[1..]) + rest;
      SizeAllAppend(t.children, ts[1..]);
      assert SizeAll(ts) == 1 + SizeAll(t.children) + SizeAll(ts[1..]);
      PreorderOfForest(t.children + ts[1..], rest);
      PreorderOfForest2(t.children, ts[1..]);
    }
  }

  /** A helper for the step above: the traversal of `children ++ siblings`. */
  lemma {:induction false} PreorderOfForest2<T>(cs: seq<Tree<T>>, ss: seq<Tree<T>>)
    ensures RecursivelyAll(cs + ss) == RecursivelyAll(cs) + RecursivelyAll(ss)
    decreases |cs|
  {
    if cs == [] {
      assert cs + ss == ss;
    } else {
      assert (cs + ss)[0] == cs[0] && (cs + ss)[1..] == cs[1..] + ss;
      PreorderOfForest2(cs[1..], ss);
    }
  }

  lemma {:induction false} CountAll<T>(ts: seq<Tree<T>>)
    ensures |RecursivelyAll(ts)| == SizeAll(ts)
    decreases ts, 0
  {
    if ts != [] {
      Count(ts[0]);
      CountAll(ts[1..]);
    }
  }

  lemma {:induction false} Count<T>(t: Tree<T>)
    ensures |Recursively(t)| == Size(t)
    decreases t, 1
  {
    CountAll(t.children);
  }
}
