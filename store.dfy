/** The Store: one state value, a reducer, and a middleware chain around the
    terminal reducing step (Sources/UNILib/Store.swift, both `#if` branches;
    Sources/RxUNILib/RxStore.swift; Sources/CombineUNILib/Store.swift — the
    three classes differ only in the reactive library that publishes `state`).

    Running a dispatch function is modelled by what it does to the store: the
    sequence of states the terminal `reduce` commits, in order. A middleware is
    modelled by its synchronous behaviour: given the state `getState()` returns
    when the action arrives, the actions it passes on to `next`, in order. */
module Stores {
  import opened Reducers

  /** `DispatchFunction<Action>` run from a committed state: the states the
      terminal step commits while it runs, in commit order. */
  type DispatchFunction<!S, !A> = (S, A) -> seq<S>

  /** `Middleware<State, Action>`: `[a]` for a logger, `[]` for a filter,
      `[f(a)]` for a translator, `[a, b]` for one that follows `a` with `b`. */
  datatype Middleware<!S, !A> = Middleware(forward: (S, A) -> seq<A>)

  /** The store's state after the commits `c`, starting from `s`. */
  function Last<S>(s: S, c: seq<S>): S {
    if c == [] then s else c[|c| - 1]
  }

  /** Calls `next` on each of `actions` in turn, each call starting from the
      state the previous one left; the commits of all calls, in order. */
  function Thread<S, A>(next: DispatchFunction<S, A>, s: S, actions: seq<A>): seq<S>
    decreases |actions|
  {
    if actions == [] then []
    else
      var c := next(s, actions[0]);
      c + Thread(next, Last(s, c), actions[1..])
  }

  /** `middleware(dispatch, getState)(next)`: the dispatch function that runs
      `m` in front of `next`. */
  function Wrap<S, A>(m: Middleware<S, A>, next: DispatchFunction<S, A>): DispatchFunction<S, A> {
    (s, a) => Thread(next, s, m.forward(s, a))
  }

  /** The terminal step `{ action in self.reduce(action) }`: commits
      `reducer.reduce(state, action)` once. */
  function Terminal<S, A>(r: Reducer<S, A>): DispatchFunction<S, A> {
    (s, a) => [r.reduce(s, a)]
  }

  /** `Array.reversed()`. */
  function Reversed<T>(xs: seq<T>): (r: seq<T>)
    ensures |r| == |xs|
    ensures forall i :: 0 <= i < |xs| ==> r[i] == xs[|xs| - 1 - i]
  {
    if xs == [] then [] else Reversed(xs[1..]) + [xs[0]]
  }

  /** `Sequence.reduce(initial, combine)` with the combine step of
      `createDispatchFunction`: a left fold that wraps the accumulated
      dispatch function in each middleware in turn. */
  function FoldChain<S, A>(acc: DispatchFunction<S, A>, ms: seq<Middleware<S, A>>): DispatchFunction<S, A>
    decreases |ms|
  {
    if ms == [] then acc else FoldChain(Wrap(ms[0], acc), ms[1..])
  }

  /** `createDispatchFunction()`: the fold over `middleware.reversed()` that
      starts from the terminal step. */
  function CreateDispatchFunction<S, A>(ms: seq<Middleware<S, A>>, r: Reducer<S, A>): DispatchFunction<S, A> {
    FoldChain(Terminal(r), Reversed(ms))
  }

  /** The chain read from the outside in: the first middleware wraps the chain
      of the rest, the innermost layer is the terminal step. */
  function Nested<S, A>(ms: seq<Middleware<S, A>>, r: Reducer<S, A>): DispatchFunction<S, A>
    decreases |ms|
  {
    if ms == [] then Terminal(r) else Wrap(ms[0], Nested(ms[1..], r))
  }

  /** The state the plain reducer reaches after the actions, one at a time. */
  function Replay<S, A>(r: Reducer<S, A>, s: S, actions: seq<A>): S
    decreases |actions|
  {
    if actions == [] then s else Replay(r, r.reduce(s, actions[0]), actions[1..])
  }

  // ---------------------------------------------------------------------------
  // The chain

  lemma FoldChainSnoc<S, A>(acc: DispatchFunction<S, A>, ms: seq<Middleware<S, A>>, m: Middleware<S, A>)
    ensures FoldChain(acc, ms + [m]) == Wrap(m, FoldChain(acc, ms))
    decreases |ms|
  {
    if ms != [] {
      assert (ms + [m])[1..] == ms[1..] + [m];
      FoldChainSnoc(Wrap(ms[0], acc), ms[1..], m);
    }
  }

  /** Folding over the reversed list makes `middleware[0]` the outermost
      layer: it sees each action first, and the rest of the chain sees only
      what it forwards. */
  lemma {:induction false} FirstMiddlewareIsOutermost<S, A>(ms: seq<Middleware<S, A>>, r: Reducer<S, A>)
    ensures CreateDispatchFunction(ms, r) == Nested(ms, r)
    ensures ms != [] ==> CreateDispatchFunction(ms, r) == Wrap(ms[0], CreateDispatchFunction(ms[1..], r))
    decreases |ms|
  {
    if ms != [] {
      assert Reversed(ms) == Reversed(ms[1..]) + [ms[0]];
      FoldChainSnoc(Terminal(r), Reversed(ms[1..]), ms[0]);
      FirstMiddlewareIsOutermost(ms[1..], r);
    }
  }

  /** Feeding a list of actions is feeding its two halves one after the other. */
  lemma {:induction false} ThreadAppend<S, A>(next: DispatchFunction<S, A>, s: S, xs: seq<A>, ys: seq<A>)
    ensures Thread(next, s, xs + ys) == Thread(next, s, xs) + Thread(next, Last(s, Thread(next, s, xs)), ys)
    decreases |xs|
  {
    if xs == [] {
      assert xs + ys == ys;
    } else {
      var c := next(s, xs[0]);
      assert (xs + ys)[1..] == xs[1..] + ys;
      ThreadAppend(next, Last(s, c), xs[1..], ys);
      LastAppend(s, c, Thread(next, Last(s, c), xs[1..]));
    }
  }

  /** Feeding one more action appends what `next` commits from the state the
      earlier actions left. */
  lemma ThreadSnoc<S, A>(next: DispatchFunction<S, A>, s: S, xs: seq<A>, x: A)
    ensures var c := next(Last(s, Thread(next, s, xs)), x);
      && Thread(next, s, xs + [x]) == Thread(next, s, xs) + c
      && Last(s, Thread(next, s, xs + [x])) == Last(Last(s, Thread(next, s, xs)), c)
  {
    var done := Thread(next, s, xs);
    var c := next(Last(s, done), x);
    ThreadAppend(next, s, xs, [x]);
    assert Thread(next, Last(s, done), [x]) == c + [];
    LastAppend(s, done, c);
  }

  /** The last element of a non-empty history extended by `c`. */
  lemma LastPublished<S>(p: seq<S>, c: seq<S>)
    requires p != []
    ensures (p + c)[|p + c| - 1] == Last(p[|p| - 1], c)
  {
  }

  /** The chain from layer `k` is middleware `k` around the chain from `k + 1`. */
  lemma NestedStep<S, A>(ms: seq<Middleware<S, A>>, k: nat, r: Reducer<S, A>)
    requires k < |ms|
    ensures Nested(ms[k..], r) == Wrap(ms[k], Nested(ms[k + 1..], r))
  {
    assert ms[k..][1..] == ms[k + 1..];
  }

  lemma LastAppend<S>(s: S, c1: seq<S>, c2: seq<S>)
    ensures Last(s, c1 + c2) == Last(Last(s, c1), c2)
  {
  }

  /** With no middleware, dispatching is one step of the plain reducer. */
  lemma EmptyChainIsReducer<S, A>(r: Reducer<S, A>, s: S, a: A)
    ensures CreateDispatchFunction([], r)(s, a) == [r.reduce(s, a)]
  {
  }

  /** Middleware that forwards every action unchanged is transparent: the
      chain commits exactly what the plain reducer computes. */
  lemma {:induction false} TransparentChainIsReducer<S, A>(ms: seq<Middleware<S, A>>, r: Reducer<S, A>, s: S, a: A)
    requires forall i, s', a' :: 0 <= i < |ms| ==> ms[i].forward(s', a') == [a']
    ensures CreateDispatchFunction(ms, r)(s, a) == [r.reduce(s, a)]
    decreases |ms|
  {
    FirstMiddlewareIsOutermost(ms, r);
    if ms != [] {
      FirstMiddlewareIsOutermost(ms[1..], r);
      TransparentChainIsReducer(ms[1..], r, s, a);
      assert ms[0].forward(s, a) == [a];
      assert Thread(Nested(ms[1..], r), s, [a]) == [r.reduce(s, a)] + [];
    }
  }

  /** Dispatching a list of actions through the bare terminal step commits one
      state per action, and the `i`-th commit is the plain reducer's state
      after the first `i + 1` actions. */
  lemma {:induction false} TerminalThreadIsReplay<S, A>(r: Reducer<S, A>, s: S, actions: seq<A>, i: nat)
    requires i < |actions|
    ensures |Thread(Terminal(r), s, actions)| == |actions|
    ensures Thread(Terminal(r), s, actions)[i] == Replay(r, s, actions[..i + 1])
    decreases |actions|
  {
    var s1 := r.reduce(s, actions[0]);
    assert Last(s, [s1]) == s1;
    if |actions| > 1 {
      TerminalThreadIsReplay(r, s1, actions[1..], if i == 0 then 0 else i - 1);
    } else {
      assert Thread(Terminal(r), s1, actions[1..]) == [];
    }
    if i > 0 {
      assert actions[1..][..i] == actions[..i + 1][1..];
    }
  }

  // ---------------------------------------------------------------------------
  // Plugins

  /** `Plugin<State, LocalState, Action>`. Its `body` runs on a background
      queue with a dispatcher and is an effect; the model keeps the
      `transform` and states which local states reach the body. */
  datatype Plugin<!S, L> = Plugin(transform: S -> L)

  /** `distinctUntilChanged()` / `removeDuplicates()`: passes on a value
      unless it equals the value just before it. */
  function RemoveDuplicates<T(==)>(xs: seq<T>): seq<T>
    decreases |xs|
  {
    if xs == [] then []
    else if |xs| >= 2 && xs[|xs| - 1] == xs[|xs| - 2] then RemoveDuplicates(xs[..|xs| - 1])
    else RemoveDuplicates(xs[..|xs| - 1]) + [xs[|xs| - 1]]
  }

  /** `map(plugin.transform)`. */
  function MapTransform<S, L>(f: S -> L, xs: seq<S>): (r: seq<L>)
    ensures |r| == |xs|
    ensures forall i :: 0 <= i < |xs| ==> r[i] == f(xs[i])
  {
    seq(|xs|, i requires 0 <= i < |xs| => f(xs[i]))
  }

  /** Mapping is done state by state: it distributes over concatenation, so
      the states published later are mapped after the earlier ones, and two
      maps are one map of the composed function. */
  lemma MapTransformLaws<S, L, M>(f: S -> L, g: L -> M, xs: seq<S>, ys: seq<S>, x: S)
    ensures MapTransform(f, xs + ys) == MapTransform(f, xs) + MapTransform(f, ys)
    ensures MapTransform(g, MapTransform(f, xs)) == MapTransform(x => g(f(x)), xs)
    ensures MapTransform(f, [x]) == [f(x)]
  {
  }

  /** No value is followed directly by an equal one. */
  ghost predicate NoAdjacentRepeats<T>(xs: seq<T>) {
    forall i, j :: 0 <= i < j < |xs| && j == i + 1 ==> xs[i] != xs[j]
  }

  /** When one more state is published, the plugin body is called once more,
      with the new local state, exactly when that local state differs from the
      one derived from the previous state. */
  lemma RemoveDuplicatesStep<T>(xs: seq<T>, y: T)
    ensures RemoveDuplicates(xs + [y]) ==
      if xs != [] && xs[|xs| - 1] == y then RemoveDuplicates(xs) else RemoveDuplicates(xs) + [y]
  {
    var zs := xs + [y];
    assert zs[..|zs| - 1] == xs && zs[|zs| - 1] == y;
    if xs != [] && xs[|xs| - 1] == y {
      assert zs[|zs| - 2] == xs[|xs| - 1];
      assert RemoveDuplicates(zs) == RemoveDuplicates(zs[..|zs| - 1]);
    } else {
      assert !(|zs| >= 2 && zs[|zs| - 1] == zs[|zs| - 2]);
      assert RemoveDuplicates(zs) == RemoveDuplicates(zs[..|zs| - 1]) + [zs[|zs| - 1]];
    }
  }

  /** Nothing the body receives is a repeat of what it received just before,
      every value it receives occurs in the input, and the first and the last
      input values always get through. */
  lemma {:induction false} RemoveDuplicatesSpec<T>(xs: seq<T>)
    ensures |RemoveDuplicates(xs)| <= |xs|
    ensures NoAdjacentRepeats(RemoveDuplicates(xs))
    ensures forall x :: x in RemoveDuplicates(xs) <==> x in xs
    ensures xs != [] ==> RemoveDuplicates(xs) != [] && RemoveDuplicates(xs)[0] == xs[0]
    ensures xs != [] ==> RemoveDuplicates(xs)[|RemoveDuplicates(xs)| - 1] == xs[|xs| - 1]
    decreases |xs|
  {
    if xs != [] {
      var init := xs[..|xs| - 1];
      RemoveDuplicatesSpec(init);
      assert xs == init + [xs[|xs| - 1]];
      if init != [] {
        assert init[0] == xs[0];
      }
      forall x | x in xs ensures x in RemoveDuplicates(xs) {
        if x !in init {
          assert x == xs[|xs| - 1];
        }
      }
    }
  }

  /** A sequence without adjacent repeats passes through unchanged. */
  lemma {:induction false} RemoveDuplicatesOfDistinct<T>(xs: seq<T>)
    requires NoAdjacentRepeats(xs)
    ensures RemoveDuplicates(xs) == xs
    decreases |xs|
  {
    if xs != [] {
      var init := xs[..|xs| - 1];
      assert NoAdjacentRepeats(init) by {
        forall i, j | 0 <= i < j < |init| && j == i + 1 ensures init[i] != init[j] {
          assert init[i] == xs[i] && init[j] == xs[j];
        }
      }
      RemoveDuplicatesOfDistinct(init);
      if |xs| >= 2 {
        assert xs[|xs| - 2] != xs[|xs| - 1];
      }
      assert xs == init + [xs[|xs| - 1]];
    }
  }

  /** De-duplicating twice is de-duplicating once. */
  lemma RemoveDuplicatesIdempotent<T>(xs: seq<T>)
    ensures RemoveDuplicates(RemoveDuplicates(xs)) == RemoveDuplicates(xs)
  {
    RemoveDuplicatesSpec(xs);
    RemoveDuplicatesOfDistinct(RemoveDuplicates(xs));
  }

  // ---------------------------------------------------------------------------
  // The store object

  /** `Store` / `RxStore`: `state` is the current value of the relay (or the
      `@Published` property), `published` every value it has published, the
      first being the initial state. */
  class Store<S, A> {
    var state: S
    const reducer: Reducer<S, A>
    var middleware: seq<Middleware<S, A>>
    var dispatchFunction: DispatchFunction<S, A>
    var published: seq<S>

    /** The dispatch function is the one built from the current middleware,
        and the current state is the last value published. */
    ghost predicate Valid()
      reads this
    {
      && dispatchFunction == CreateDispatchFunction(middleware, reducer)
      && published != []
      && published[|published| - 1] == state
    }

    /** `init(inputState:middleware:reducer:)`. */
    constructor(inputState: S, middleware: seq<Middleware<S, A>>, reducer: Reducer<S, A>)
      ensures Valid()
      ensures state == inputState && published == [inputState]
      ensures this.middleware == middleware && this.reducer == reducer
    {
      this.state := inputState;
      this.reducer := reducer;
      this.middleware := middleware;
      this.dispatchFunction := CreateDispatchFunction(middleware, reducer);
      this.published := [inputState];
    }

    /** Assigning `middleware`; its `didSet` rebuilds `dispatchFunction`. */
    method SetMiddleware(ms: seq<Middleware<S, A>>)
      requires Valid()
      modifies this`middleware, this`dispatchFunction
      ensures Valid()
      ensures middleware == ms
      ensures dispatchFunction == CreateDispatchFunction(ms, reducer)
    {
      middleware := ms;
      dispatchFunction := CreateDispatchFunction(middleware, reducer);
    }

    /** `reduce(_:)`: replaces `state` with the reducer's output and publishes it. */
    method Reduce(a: A)
      requires Valid()
      modifies this`state, this`published
      ensures Valid()
      ensures state == reducer.reduce(old(state), a)
      ensures published == old(published) + [state]
    {
      state := reducer.reduce(state, a);
      published := published + [state];
    }

    /** The closure at depth `k` of the chain receiving `a`: middleware `k`
        passes each action it forwards to the closure at depth `k + 1`, and
        below the last middleware the terminal step reduces. */
    method RunLayer(k: nat, a: A)
      requires Valid() && k <= |middleware|
      modifies this`state, this`published
      ensures Valid()
      ensures published == old(published) + Nested(middleware[k..], reducer)(old(state), a)
      decreases |middleware| - k
    {
      if k == |middleware| {
        Reduce(a);
      } else {
        var next := Nested(middleware[k + 1..], reducer);
        NestedStep(middleware, k, reducer);
        var forwarded := middleware[k].forward(state, a);
        ghost var s0, p0 := state, published;
        var i := 0;
        while i < |forwarded|
          invariant 0 <= i <= |forwarded|
          invariant Valid()
          invariant published == p0 + Thread(next, s0, forwarded[..i])
          invariant state == Last(s0, Thread(next, s0, forwarded[..i]))
        {
          ghost var s1, p1 := state, published;
          RunLayer(k + 1, forwarded[i]);
          ThreadSnoc(next, s0, forwarded[..i], forwarded[i]);
          assert forwarded[..i + 1] == forwarded[..i] + [forwarded[i]];
          LastPublished(p1, next(s1, forwarded[i]));
          i := i + 1;
        }
        assert forwarded[..i] == forwarded;
      }
    }

    /** `dispatch(_:)`: runs the action through `dispatchFunction`. */
    method Dispatch(a: A)
      requires Valid()
      modifies this`state, this`published
      ensures Valid()
      ensures published == old(published) + dispatchFunction(old(state), a)
      ensures state == Last(old(state), dispatchFunction(old(state), a))
    {
      FirstMiddlewareIsOutermost(middleware, reducer);
      assert middleware[0..] == middleware;
      RunLayer(0, a);
      LastAppend(old(published)[|old(published)| - 1], old(published), dispatchFunction(old(state), a));
    }

    /** `dispatch(_ actions:)`: `actions.forEach(dispatch)`. */
    method DispatchAll(actions: seq<A>)
      requires Valid()
      modifies this`state, this`published
      ensures Valid()
      ensures published == old(published) + Thread(dispatchFunction, old(state), actions)
      ensures state == Last(old(state), Thread(dispatchFunction, old(state), actions))
    {
      ghost var s0, p0 := state, published;
      for i := 0 to |actions|
        invariant Valid()
        invariant published == p0 + Thread(dispatchFunction, s0, actions[..i])
        invariant state == Last(s0, Thread(dispatchFunction, s0, actions[..i]))
      {
        Dispatch(actions[i]);
        ThreadSnoc(dispatchFunction, s0, actions[..i], actions[i]);
        assert actions[..i + 1] == actions[..i] + [actions[i]];
      }
      assert actions[..|actions|] == actions;
    }

    /** `attach(_ plugin:)`: subscribes from the current value on. Returns the
        position in `published` of the first state the plugin sees. */
    method Attach<L>(plugin: Plugin<S, L>) returns (from: nat)
      requires Valid()
      ensures from < |published| && published[from] == state
      ensures from == |published| - 1
      ensures Delivered(plugin, from) == [plugin.transform(state)]
    {
      from := |published| - 1;
      assert published[from..] == [state];
      var first := [plugin.transform(state)];
      assert MapTransform(plugin.transform, [state]) == first;
      assert first[..0] == [];
      assert RemoveDuplicates(first) == first;
    }

    /** The local states the plugin body receives, in order, when it was
        attached at position `from`. */
    ghost function Delivered<L>(plugin: Plugin<S, L>, from: nat): seq<L>
      reads this
      requires from < |published|
    {
      RemoveDuplicates(MapTransform(plugin.transform, published[from..]))
    }
  }

  /** What an attached plugin's body receives: first the local state at the
      moment it was attached, then only changes (never the same local state
      twice in a row), ending with the local state of the current state, and
      nothing that is not the local state of some state published since. */
  lemma PluginSeesDistinctChanges<S, A, L>(store: Store<S, A>, plugin: Plugin<S, L>, from: nat)
    requires store.Valid() && from < |store.published|
    ensures var d := store.Delivered(plugin, from);
      && d != []
      && d[0] == plugin.transform(store.published[from])
      && d[|d| - 1] == plugin.transform(store.state)
      && NoAdjacentRepeats(d)
      && forall x :: x in d <==> exists k :: from <= k < |store.published| && x == plugin.transform(store.published[k])
  {
    var xs := MapTransform(plugin.transform, store.published[from..]);
    RemoveDuplicatesSpec(xs);
    forall x ensures x in xs <==> exists k :: from <= k < |store.published| && x == plugin.transform(store.published[k]) {
      if x in xs {
        var i :| 0 <= i < |xs| && xs[i] == x;
        assert x == plugin.transform(store.published[from + i]);
      }
      if exists k :: from <= k < |store.published| && x == plugin.transform(store.published[k]) {
        var k :| from <= k < |store.published| && x == plugin.transform(store.published[k]);
        assert xs[k - from] == x;
      }
    }
  }
}
