/** Worked stores: a counter dispatched with and without a logging
    middleware, and an application state whose counter and flag are handled
    by reducers lifted through lenses and prisms. */
module Scenarios {
  import opened Optionals
  import opened Optics
  import opened Reducers
  import opened Stores

  datatype CounterAction = Increment | Decrement

  /** Adds or subtracts one. */
  function CounterReducer(): Reducer<int, CounterAction> {
    Reducer((s: int, a: CounterAction) => if a == Increment then s + 1 else s - 1)
  }

  /** A middleware that logs the action and forwards it unchanged. */
  function Logger<S, A>(): Middleware<S, A> {
    Middleware((s: S, a: A) => [a])
  }

  /** Dispatching `[Increment, Increment, Decrement]` into a counter store
      starting at 0 publishes 0, 1, 2, 1 and ends at 1, whether or not a
      logging middleware sits in front of the reducer. */
  method CounterStore(withLogger: bool) returns (observed: seq<int>, final: int)
    ensures observed == [0, 1, 2, 1] && final == 1
  {
    var r := CounterReducer();
    var ms: seq<Middleware<int, CounterAction>> := if withLogger then [Logger()] else [];
    var store := new Store(0, ms, r);
    assert forall i, s', a' :: 0 <= i < |ms| ==> ms[i].forward(s', a') == [a'];
    TransparentChainIsReducer(ms, r, 0, Increment);
    TransparentChainIsReducer(ms, r, 1, Increment);
    TransparentChainIsReducer(ms, r, 2, Decrement);
    var df := store.dispatchFunction;
    assert Thread(df, 2, [Decrement]) == [1];
    assert Thread(df, 1, [Increment, Decrement]) == [2] + Thread(df, 2, [Decrement]);
    assert Thread(df, 0, [Increment, Increment, Decrement]) == [1] + Thread(df, 1, [Increment, Decrement]);
    store.DispatchAll([Increment, Increment, Decrement]);
    observed, final := store.published, store.state;
  }

  // ---------------------------------------------------------------------------
  // Lifting into an application state

  datatype AppState = AppState(count: int, flag: bool)
  datatype AppAction = Counter(action: CounterAction) | Toggle

  function CountLens(): Lens<AppState, int> {
    Lens((s: AppState) => s.count, (c: int) => (s: AppState) => s.(count := c))
  }

  function FlagLens(): Lens<AppState, bool> {
    Lens((s: AppState) => s.flag, (f: bool) => (s: AppState) => s.(flag := f))
  }

  /** The prisms the enum template generates for the two cases. */
  function CounterPrism(): Prism<AppAction, CounterAction> {
    Prism((a: AppAction) => if a.Counter? then Some(a.action) else None, (c: CounterAction) => Counter(c))
  }

  function TogglePrism(): Prism<AppAction, ()> {
    Prism((a: AppAction) => if a.Toggle? then Some(()) else None, (u: ()) => Toggle)
  }

  function ToggleReducer(): Reducer<bool, ()> {
    Reducer((f: bool, u: ()) => !f)
  }

  /** `lift(counter, lens, prism) <> lift(toggle, lens, prism)`. */
  function AppReducer(): Reducer<AppState, AppAction> {
    Combine(Lift(CounterReducer(), CountLens(), CounterPrism()), Lift(ToggleReducer(), FlagLens(), TogglePrism()))
  }

  /** The two lenses are lawful and address disjoint fields; the two prisms
      are lawful. */
  lemma AppOpticsLawful()
    ensures PutGet(CountLens()) && GetPut(CountLens()) && PutPut(CountLens())
    ensures PutGet(FlagLens()) && GetPut(FlagLens()) && PutPut(FlagLens())
    ensures Independent(CountLens(), FlagLens()) && Independent(FlagLens(), CountLens())
    ensures Lawful(CounterPrism()) && Lawful(TogglePrism())
  {
    forall u: () ensures TogglePrism().tryGet(TogglePrism().inject(u)) == Some(u) {
      assert u == ();
    }
  }

  /** A counter action moves only the count, a toggle only the flag. */
  lemma {:induction false} LiftedReducersStayInTheirLane(s: AppState, c: CounterAction)
    ensures AppReducer().reduce(s, Counter(c)) == s.(count := CounterReducer().reduce(s.count, c))
    ensures AppReducer().reduce(s, Toggle) == s.(flag := !s.flag)
  {
    AppOpticsLawful();
    var s1 := Lift(CounterReducer(), CountLens(), CounterPrism()).reduce(s, Counter(c));
    LiftFocus(CounterReducer(), CountLens(), CounterPrism(), s, Counter(c), c);
    assert TogglePrism().tryGet(Counter(c)) == None;
    LiftFocus(ToggleReducer(), FlagLens(), TogglePrism(), s1, Counter(c), ());
    assert CounterPrism().tryGet(Toggle) == None;
    LiftFocus(CounterReducer(), CountLens(), CounterPrism(), s, Toggle, c);
  }
}
