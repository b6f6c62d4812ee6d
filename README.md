# UNILib core in Dafny

This project models the logic core of UNILib, a Swift utility library. The core has three parts.

1. **The reducer algebra and its optics.**
   - `Reducer` with its monoid operator `<>` and `empty`.
   - The three `lift` overloads: through a `Lens` on the state, a `Prism` on the action, or both.
   - `Lens`/`Prism` and lens-of-lens `lift`.
   - The lens pairing `<>`.
   - The operators `|>`, `map` and `<*>`.
2. **The `Store`.** It is a class holding the current state, a reducer and a middleware list. A dispatch function is built by folding the middleware list around a terminal `reduce` step. Plugins observe the de-duplicated stream of states.
3. **Small pure utilities.**
   - `Loadable`/`Either` and progress aggregation.
   - The `Optional` helpers.
   - The free functions `compactMap`, `zip2`/`zip3`, `resample` and `recursively`.
   - `Int.secondsToTime`.
   - The collection helpers.
   - The integer part of `UIColor(hexString:)`.
   - `withPrevious`.
   - `Pair`/`Three`.

The library carries several copies of the same code. Each concept is modelled once, and that module stands for every copy. A row of the table below cites one copy; the copies listed here are line-for-line the same logic.

| module (file) | stands for |
|---|---|
| `Reducers` (reducers.dfy) | Sources/UNILibCore/Reducer.swift, Sources/Common/Reducer.swift, Sources/UNILib/Reducer.swift |
| `Optics` (optics.dfy) | Sources/UNILib/Lens+Prism.swift, and the lens `<>` of Sources/UNILibCore/Operators.swift, Sources/Common/Reducer.swift and Sources/UNILib/Reducer.swift |
| `Operators` (operators.dfy) | `|>`, `map` and `<*>` in Sources/UNILibCore/Operators.swift, Sources/Common/Reducer.swift and Sources/UNILib/Reducer.swift |
| `Stores` (store.dfy) | both `#if` branches of Sources/UNILib/Store.swift, Sources/RxUNILib/RxStore.swift and Sources/CombineUNILib/Store.swift |
| `Loadables` (loadable.dfy) | Sources/UNILibCore/Wrappers/Loadable.swift and Sources/UNILib/Loadable.swift |
| `Optionals` (optionals.dfy) | Sources/UNILib/Optional+Extensions.swift |
| `FreeFunctions` (free_functions.dfy) | Sources/Common/FreeFunctions.swift and Sources/UNILib/FreeFunctions.swift |
| `TimeFormat` (time_format.dfy) | Sources/UNILibCore/Int+Ext.swift |
| `Collections` (collections.dfy) | Sources/UNILibCore/Collection+Ext.swift |
| `Colors` (color.dfy) | Sources/UNILibCore/Extensions/UIColor+Ext.swift |
| `WithPrevious` (with_previous.dfy) | Sources/RxUNILib/WithPrevious.swift |
| `Pairs` (pair.dfy) | Sources/Common/Pair.swift |
| `Scenarios` (scenarios.dfy) | worked uses of the store and of lifted reducers |
| `Arithmetic` (arithmetic.dfy) | helper lemmas on integer division |

**Modelling choices**

- **Function-valued fields.** Lenses, prisms, reducers and middleware are datatypes with function-valued fields. The Swift setter `set` is called `put`, because `set` is a Dafny keyword.
- **Dispatch functions.** A dispatch function is modelled by its effect on the store: the states the terminal `reduce` commits while it runs, in order.
- **Middleware.** A middleware is modelled by the actions it passes on to `next` for the state that `getState()` returns on entry. A logger forwards `[a]`, a filter `[]`, and a translator `[f(a)]`.
- **The Store class.**
  - `state` is the relay's or publisher's current value.
  - `published` is every value the relay or publisher has emitted.
  - `Dispatch` runs the chain imperatively, layer by layer, and is proved equal to the folded dispatch function.
  - A plugin attached at some point receives `RemoveDuplicates` of its `transform` mapped over the states published from that point on.
- **Swift semantics written out.** Swift's truncating `/` and `%` become `TimeFormat.Quot` and `TimeFormat.Rem`. The `Float` progress of `Loadable` is a `real`. An observable is the finite sequence of elements it emits.

## Model

| member | source | states |
|---|---|---|
| `Reducers.EmptyIsIdentity` | Sources/UNILibCore/Reducer.swift:31-33 | `empty` returns the state unchanged, so it is a left and right identity of `<>` (the `Monoid` conformance) |
| `Reducers.CombineAssociative` | Sources/UNILibCore/Reducer.swift:24-29 | `<>` applies the same action left then right, threading the state, and is associative |
| `Reducers.CombineOrderMatters` | Sources/UNILib/Reducer.swift:87-92 | `<>` threads the state left to right: with add-one and double, the two orders give 2 and 1 from 0 |
| `Reducers.LiftStateFocus` | Sources/UNILibCore/Reducer.swift:37-46 | through a lens obeying put-get, the lens's part after the lifted step is the local reduction of the part before |
| `Reducers.LiftStateFrame` | Sources/Common/Reducer.swift:83-92 | a lens-lifted reducer changes the state only through `set` of its part: anything an independent lens reads is unchanged |
| `Reducers.LiftStateEmpty` | Sources/UNILib/Reducer.swift:100-109 | lifting `empty` through a lens obeying get-put is `empty` |
| `Reducers.LiftStateDistributes` | Sources/UNILibCore/Reducer.swift:37-46 | lifting through a lawful lens distributes over `<>` |
| `Reducers.LiftActionMatchOrPass` | Sources/UNILibCore/Reducer.swift:48-60 | a prism-lifted reducer runs the local reducer on an injected action, is a no-op when `tryGet` fails, and changes the state only for an injected action |
| `Reducers.LiftActionByTryGet` | Sources/UNILibCore/Reducer.swift:48-60 | for any prism: an action `tryGet` extracts `a` from is reduced as `a`, any other leaves the state unchanged |
| `Reducers.LiftActionHomomorphism` | Sources/UNILib/Reducer.swift:111-123 | the prism lift distributes over `<>` and keeps `empty` |
| `Reducers.LiftIsBothLifts` | Sources/UNILibCore/Reducer.swift:62-77 | the lens-and-prism lift is the prism lift of the lens lift, and with a get-put lens also the lens lift of the prism lift |
| `Reducers.LiftFocus` | Sources/Common/Reducer.swift:108-123 | the lens-and-prism lift is a lens lift on a matched action and leaves the global state untouched on a mismatch |
| `Reducers.LiftByTryGet` | Sources/UNILibCore/Reducer.swift:62-77 | for any lens and prism: an action `tryGet` extracts `a` from acts as the lens lift of `a`, any other leaves the global state unchanged |
| `Optics.LiftAccessors` | Sources/UNILib/Lens+Prism.swift:29-37 | the lifted lens reads through both lenses, and writes the updated inner part back into the outer part it came from |
| `Optics.LiftPreservesPutGet` | Sources/UNILib/Lens+Prism.swift:29-39 | if both lenses obey put-get, so does the lifted lens |
| `Optics.LiftPreservesGetPut` | Sources/UNILib/Lens+Prism.swift:29-39 | if both lenses obey get-put, so does the lifted lens |
| `Optics.LiftPreservesPutPut` | Sources/UNILib/Lens+Prism.swift:33-37 | put-put is kept when the outer lens is lawful |
| `Optics.LiftAssociative` | Sources/UNILib/Lens+Prism.swift:29-39 | lens-of-lens does not depend on grouping |
| `Optics.PairedPutGet` | Sources/UNILibCore/Operators.swift:70-82 | the lens pair of two lawful lenses on disjoint parts gives back `(a, b)` after writing `(a, b)` |
| `Optics.PairedGetPut` | Sources/Common/Reducer.swift:37-50 | writing back both parts that were read changes nothing |
| `Optics.PairedLeftWins` | Sources/UNILibCore/Operators.swift:76-80 | `set` writes `rhs` first and `lhs` last, so on one lens used twice the left component wins |
| `Optics.OptionalPrismLawful` | Sources/UNILib/Optional+Extensions.swift:71-77 | `Optional.prism` gives back what it injects and fails exactly on nil |
| `Loadables.GeneratedPrismsLawful` | Sources/UNILib/Lens+Prism.swift:102-108 | the prisms the enum template generates (with and without a payload) are lawful and match only their own case |
| `Operators.PipeOptional` | Sources/UNILibCore/Operators.swift:26-28 | an optional `x \|> f` is nil on nil and `f(v)` on `some(v)` |
| `Operators.PipeThroughCompose` | Sources/UNILibCore/Operators.swift:22-24 | `x \|> f` is `f(x)`, and piping into `map(f, g)` is piping into `f` then `g` |
| `Operators.ComposeAssociative` | Sources/UNILibCore/Operators.swift:36-43 | `map`/`<*>` composition runs `lhs` then `rhs` and is associative |
| `Operators.ComposeOptionalShortCircuits` | Sources/UNILibCore/Operators.swift:45-52 | the optional `map`/`<*>` is nil when `lhs(x)` is nil, otherwise `rhs` of the value |
| `Operators.PipeOptionalLaws` | Sources/UNILibCore/Operators.swift:26-28 | piping an optional into `f` and then `g` is piping it into the optional `map(f, g)`; piping into `.some` gives it back; a value comes out only if one went in |
| `Operators.ComposeOptionalLaws` | Sources/UNILibCore/Operators.swift:62-67 | the optional composition is associative with `.some` as identity |
| `Stores.Store.constructor` | Sources/UNILib/Store.swift:47-55 | `init` sets the state to the input state, stores the reducer and middleware, and builds the dispatch function |
| `Stores.Store.SetMiddleware` | Sources/RxUNILib/RxStore.swift:25-29 | assigning `middleware` rebuilds `dispatchFunction` from the new list |
| `Stores.Store.Reduce` | Sources/CombineUNILib/Store.swift:71-77 | the terminal step replaces the state with `reducer.reduce(old, a)` and publishes it, once |
| `Stores.Store.RunLayer` | Sources/UNILib/Store.swift:162-172 | the closure at depth `k` publishes exactly what the chain from middleware `k` inward commits |
| `Stores.Store.Dispatch` | Sources/UNILib/Store.swift:157-160 | `dispatch` publishes what `dispatchFunction` commits from the old state, and ends at the last commit |
| `Stores.Store.DispatchAll` | Sources/RxUNILib/RxStore.swift:89-93 | dispatching a list is dispatching each action in turn, each from the state the previous one left |
| `Stores.Store.Attach` | Sources/UNILib/Store.swift:148-155 | a plugin subscribes at the current value: its delivery starts at the current state, and the body at once receives exactly that state's local state |
| `Stores.PluginSeesDistinctChanges` | Sources/RxUNILib/RxStore.swift:54-61 | a plugin receives first the local state when attached, then only changes, ending at the current local state, and only local states of published states |
| `Stores.RemoveDuplicatesSpec` | Sources/UNILib/Store.swift:66-73 | `distinctUntilChanged` keeps the first and last value and every distinct value, and never emits a value twice in a row |
| `Stores.RemoveDuplicatesStep` | Sources/UNILib/Store.swift:148-155 | a new state is delivered exactly when its local state differs from that of the state published before it |
| `Stores.RemoveDuplicatesOfDistinct` | Sources/CombineUNILib/Store.swift:45-52 | a stream without adjacent repeats passes through `removeDuplicates` unchanged |
| `Stores.RemoveDuplicatesIdempotent` | Sources/RxUNILib/RxStore.swift:54-61 | de-duplicating twice is de-duplicating once |
| `Stores.FirstMiddlewareIsOutermost` | Sources/CombineUNILib/Store.swift:59-69 | the fold over `middleware.reversed()` makes `middleware[0]` the outermost layer around the rest of the chain |
| `Stores.EmptyChainIsReducer` | Sources/UNILib/Store.swift:162-180 | with no middleware, a dispatch is one step of the plain reducer |
| `Stores.TransparentChainIsReducer` | Sources/RxUNILib/RxStore.swift:63-86 | middleware that forwards every action unchanged leaves dispatch equal to one reducer step |
| `Stores.TerminalThreadIsReplay` | Sources/CombineUNILib/Store.swift:71-84 | dispatching a list through the terminal step commits, for each prefix, the plain reducer's replay of it |
| `Stores.ThreadAppend` | Sources/UNILib/Store.swift:101-105 | dispatching `xs + ys` is dispatching `xs`, then `ys` from where `xs` left the state |
| `Stores.Reversed` | Sources/UNILib/Store.swift:80-90 | `reversed()` has the same length with elements in opposite order |
| `Stores.MapTransformLaws` | Sources/UNILib/Store.swift:66-73 | `map(plugin.transform)` distributes over concatenation (later states map after earlier ones), maps one state to its local state, and two maps are one of the composition |
| `Scenarios.CounterStore` | Sources/UNILib/Store.swift:101-105 | dispatching `[+1, +1, -1]` into a counter store at 0 publishes 0, 1, 2, 1 with or without a logging middleware |
| `Scenarios.AppOpticsLawful` | Sources/UNILib/Lens+Prism.swift:2-26 | lenses on two fields of a record are lawful and independent, and case prisms are lawful |
| `Scenarios.LiftedReducersStayInTheirLane` | Sources/UNILibCore/Reducer.swift:62-77 | combining two lifted reducers: a counter action moves only the count, a toggle only the flag |
| `Loadables.Either.LeftValue` | Sources/UNILibCore/Wrappers/Loadable.swift:36-43 | `left` is non-nil exactly on a left value and holds its payload |
| `Loadables.Either.RightValue` | Sources/UNILibCore/Wrappers/Loadable.swift:45-52 | `right` is non-nil exactly on a right value and holds its payload |
| `Loadables.EitherAccessorsExclusive` | Sources/UNILibCore/Wrappers/Loadable.swift:18-34 | `isRight == !isLeft`, and exactly one accessor is non-nil |
| `Loadables.MapFunctor` | Sources/UNILib/Loadable.swift:79-86 | `map` keeps the identity, distributes over composition, and keeps the case (item stays item, loading stays loading) |
| `Loadables.FlatMapMonad` | Sources/UNILibCore/Wrappers/Loadable.swift:96-103 | `flatMap` obeys the monad laws with `.item` as unit, and `map` is `flatMap` into `.item` |
| `Loadables.AggregateLoading` | Sources/UNILibCore/Wrappers/Loadable.swift:116-140 | with a loading element the aggregate is loading, its progress the mean weight (item 1, empty/error 0, loading its progress), within `[0, 1]` when every progress is |
| `Loadables.AggregateItems` | Sources/UNILibCore/Wrappers/Loadable.swift:141-153 | with no loading element the aggregate is the items in order; an empty input gives `.item([])` |
| `Loadables.ItemsMembership` | Sources/UNILib/Loadable.swift:134-146 | a value is collected exactly when some element is `.item` of it (empty and error are dropped) |
| `Loadables.ItemsAppend` | Sources/UNILibCore/Wrappers/Loadable.swift:141-153 | collecting items keeps the input order |
| `Loadables.FoldProgressIsMean` | Sources/UNILibCore/Wrappers/Loadable.swift:116-140 | the `reduce` adding each progress divided by the count is the sum divided by the count |
| `Loadables.SumWeightsBounds` | Sources/UNILib/Loadable.swift:108-133 | with progresses in `[0, 1]`, the total weight lies between 0 and the count |
| `Optionals.NilTests` | Sources/UNILib/Optional+Extensions.swift:30-37 | `isNil` holds exactly on nil and `isNotNil` is its negation |
| `Optionals.MapNilLaws` | Sources/UNILib/Optional+Extensions.swift:12-19 | `mapNil` always yields a value, a second `mapNil` never runs its closure, it is `flatMapNil` of a closure returning a value, and its value is `or(f())` |
| `Optionals.FlatMapNilLaws` | Sources/UNILib/Optional+Extensions.swift:21-28 | `flatMapNil { nil }` changes nothing, the result is nil exactly when both are, and two `flatMapNil`s are one of the chained closures |
| `Optionals.OrLaws` | Sources/UNILib/Optional+Extensions.swift:43-47 | `or(d)` is the value of `mapNil { d }`; it ignores `d` exactly when a value is present |
| `Optionals.Do` | Sources/UNILib/Optional+Extensions.swift:49-68 | `do` returns `self`; `f` runs only on a value, `rollback` only on nil when given |
| `FreeFunctions.CompactMapMembership` | Sources/Common/FreeFunctions.swift:14-16 | `compactMap` keeps exactly the present values |
| `FreeFunctions.CompactMapAppend` | Sources/UNILib/FreeFunctions.swift:15-17 | `compactMap` keeps the order of the input |
| `FreeFunctions.CompactMapOfPresent` | Sources/Common/FreeFunctions.swift:14-16 | nothing present is dropped: compacting wrapped values gives them back |
| `FreeFunctions.NotNil` | Sources/Common/FreeFunctions.swift:25-27 | `notNil` holds exactly on a present value |
| `FreeFunctions.IsNil` | Sources/UNILib/FreeFunctions.swift:30-32 | `isNil` holds exactly on nil |
| `FreeFunctions.TrivialHelpers` | Sources/Common/FreeFunctions.swift:45-63 | `identity`, `identityOp`, `toArray` return their argument as named; `isTrue`/`isFalse` compare with true/false; `notNil == !isNil` |
| `FreeFunctions.Zip2` | Sources/Common/FreeFunctions.swift:68-75 | `zip2` is present exactly when both inputs are, and pairs them |
| `FreeFunctions.Zip3` | Sources/UNILib/FreeFunctions.swift:71-81 | `zip3` is present exactly when all inputs are, and holds them |
| `FreeFunctions.Zip3IsNestedZip2` | Sources/Common/FreeFunctions.swift:78-88 | `zip3` agrees with `zip2` nested |
| `FreeFunctions.SourceIndex` | Sources/UNILib/FreeFunctions.swift:176-180 | the index `i * size / newSize` is always within the input |
| `FreeFunctions.SourceIndexMonotone` | Sources/Common/FreeFunctions.swift:132-136 | resampling keeps the order of the input |
| `FreeFunctions.ResampleToOwnSize` | Sources/UNILib/FreeFunctions.swift:176-180 | resampling to the input's own size gives the input back |
| `FreeFunctions.ResampleRepeats` | Sources/Common/FreeFunctions.swift:132-136 | stretching to `k` times the size repeats every element `k` times in place: output `i` is input `i / k` |
| `FreeFunctions.ResampleDecimates` | Sources/UNILib/FreeFunctions.swift:176-180 | shrinking to a `k`-th of the size keeps every `k`-th element from the first on: output `i` is input `i * k` |
| `FreeFunctions.RecursivelyIsPreorder` | Sources/Common/FreeFunctions.swift:148-163 | `recursively` calls `operation` in pre-order, once per node, target first, as an explicit-stack traversal does |
| `FreeFunctions.PreorderOfForest` | Sources/UNILib/FreeFunctions.swift:201-211 | traversing children in front of pending siblings visits the children's subtrees, left to right, before the siblings |
| `TimeFormat.Quot` | Sources/UNILibCore/Int+Ext.swift:12 | Swift's `/` truncates toward zero: `b * q` is the multiple of `b` nearest `a` between `a` and 0 (`0 <= b*q <= a < b*q + b` for `a >= 0`, `b*q - b < a <= b*q <= 0` below) |
| `TimeFormat.Rem` | Sources/UNILibCore/Int+Ext.swift:12 | Swift's `%` takes the sign of the dividend and completes `a == b * (a / b) + a % b` |
| `TimeFormat.Components` | Sources/UNILibCore/Int+Ext.swift:12 | for a non-negative input: `h*3600 + m*60 + s == seconds` with `m` and `s` in `0 ..< 60` |
| `TimeFormat.ShowNat` | Sources/UNILibCore/Int+Ext.swift:15-16 | a number prints as decimal digits: one below 10, two below 100 |
| `TimeFormat.PadField` | Sources/UNILibCore/Int+Ext.swift:20-22 | a field below 10 gets one leading `0`; every field has at least two digits and reads back as its value |
| `TimeFormat.SecondsToTimeLayout` | Sources/UNILibCore/Int+Ext.swift:14-25 | without a full hour the text is `MM:SS` (5 characters), otherwise `HH:MM:SS` with at least two hour digits |
| `TimeFormat.SecondsToTimeRoundTrip` | Sources/UNILibCore/Int+Ext.swift:11-26 | reading the fields back gives the number of seconds |
| `TimeFormat.ParseShowNat` | Sources/UNILibCore/Int+Ext.swift:15-16 | printed digits read back as the number |
| `TimeFormat.NegativeInput` | Sources/UNILibCore/Int+Ext.swift:11-26 | a negative input passes through the truncating operators: `-5` prints as `00:0-5` |
| `Collections.IsNotEmpty` | Sources/UNILibCore/Collection+Ext.swift:15-19 | `isNotEmpty` is `!isEmpty` |
| `Collections.Middle` | Sources/UNILibCore/Collection+Ext.swift:33-37 | the middle lies in the range, at most one step closer to the lower end |
| `Collections.SafeIndexAgrees` | Sources/UNILibCore/Collection+Ext.swift:40-45 | the safe subscript agrees with plain indexing and is nil one past either end |
| `Collections.Updated` | Sources/UNILibCore/Collection+Ext.swift:47-53 | `updated(with:)` holds the value, every old element, and nothing else |
| `Collections.UpdatedLaws` | Sources/UNILibCore/Collection+Ext.swift:47-53 | updating is idempotent, order-independent, and a no-op for a member |
| `Collections.LookupByRawValueLaws` | Sources/UNILibCore/Collection+Ext.swift:55-59 | after storing `v` under `value.rawValue` the lookup by `value` is `v`; values with other raw values see the old entries; values with equal raw values see the same entry; a removed key looks up nil |
| `Colors.Trim` | Sources/UNILibCore/Extensions/UIColor+Ext.swift:14-15 | the trimmed text is empty exactly when the input has no letter or digit; otherwise it is the input between its leading and trailing non-alphanumerics, and starts and ends with a letter or digit |
| `Colors.TrimKeepsAlnumEnds` | Sources/UNILibCore/Extensions/UIColor+Ext.swift:14-15 | trimming keeps a text that already starts and ends alphanumeric |
| `Colors.DecodeHex` | Sources/UNILibCore/Extensions/UIColor+Ext.swift:23-50 | every component is in `0 ... 255`; a length other than 3, 6, 8 gives `(255, 0, 0, 0)`; 3 and 6 digits are opaque |
| `Colors.DecodeEncodedArgb` | Sources/UNILibCore/Extensions/UIColor+Ext.swift:40-47 | with 8 digits the bytes are alpha, red, green, blue: decoding `#AARRGGBB` gives the four components back |
| `Colors.SplitBytes` | Sources/UNILibCore/Extensions/UIColor+Ext.swift:32-47 | the shifts and masks recover the bytes of a 32-bit value |
| `Colors.ShortForm` | Sources/UNILibCore/Extensions/UIColor+Ext.swift:24-31 | an instance of the three-digit rule: `#F80` is `(255, 255, 136, 0)` |
| `Colors.ScanHexReadsDigits` | Sources/UNILibCore/Extensions/UIColor+Ext.swift:17-19 | on a text of hexadecimal digits the scan is the value of all of them, also after a `0x`/`0X` prefix |
| `Colors.DecodeThreeHexDigits` | Sources/UNILibCore/Extensions/UIColor+Ext.swift:24-31 | for every input whose trimmed text is three hexadecimal digits `RGB`: opaque, each component the digit times 17 |
| `Colors.DecodeSixHexDigits` | Sources/UNILibCore/Extensions/UIColor+Ext.swift:32-39 | for every input whose trimmed text is six hexadecimal digits `RRGGBB`: opaque, the components the three two-digit numbers |
| `Colors.DecodeEncodedRgb` | Sources/UNILibCore/Extensions/UIColor+Ext.swift:32-39 | decoding `#RRGGBB` printed from three bytes gives the opaque colour with those bytes |
| `WithPrevious.Step` | Sources/RxUNILib/WithPrevious.swift:15-17 | the accumulator holds one or two elements, the last being the current one |
| `WithPrevious.WindowsAreShort` | Sources/RxUNILib/WithPrevious.swift:15-17 | the accumulator after input `i` is the last two inputs (just the first, at the start) |
| `WithPrevious.ScanWindows` | Sources/RxUNILib/WithPrevious.swift:15-17 | the accumulator after `i + 1` inputs is the last two of everything seen |
| `WithPrevious.WithPrevious` | Sources/RxUNILib/WithPrevious.swift:14-20 | one output per input |
| `WithPrevious.WithPreviousPairs` | Sources/RxUNILib/WithPrevious.swift:18-20 | output 0 is `(nil, xs[0])`, output `i > 0` is `(xs[i-1], xs[i])` |
| `WithPrevious.ZipIfNotEmpty` | Sources/RxUNILib/WithPrevious.swift:27-28 | an empty collection emits a single `[]` |
| `Pairs.TupleRoundTrip` | Sources/Common/Pair.swift:20-23 | a pair and its tuple determine each other |
| `Pairs.FlatMapLaws` | Sources/Common/Pair.swift:37-39 | `flatMap` of the identity is the identity, and two `flatMap`s are one of the composition |
| `Pairs.MapAfterFlatMap` | Sources/Common/Pair.swift:33-39 | `map` after `flatMap` is one `map` of the composition |
| `Pairs.Componentwise` | Sources/Common/Pair.swift:42-60 | `Pair` and `Three` are equal exactly when every component is |

## Left out

- Re-entrant dispatch from middleware is not modelled. The `dispatch` closure handed to middleware re-enters the whole chain, which could recurse without bound. The model's middleware acts only through `next`.
- Asynchronous middleware is not modelled. The chain is sequential.
- Concurrency is not modelled: the `reduceQueue.sync` serialisation, the `observeOn`/`receive(on:)` scheduling of plugin bodies, and `Atomic`.
- The plugin `body` is not modelled. It runs caller code, and the model states only what it receives (`Stores.Store.Delivered`).
- `weak`/`unowned` captures, `deinit`, `attach(IndependentPlugin)` and the returned `Disposable`/`AnyCancellable` are not modelled. They are lifetime details only.
- The `print(time())` logging in `dispatch` is left out.
- The forward list of a middleware is computed from the state when the action reaches it, rather than re-read with `getState()` between forwarded actions.
- `Stores.Store.constructor` builds `dispatchFunction` eagerly; in the Swift source it is `lazy`. Both yield the same function before the first dispatch.
- Progress in `aggregatingProgressIgnoringErrors` is a `real`, so `Float` rounding and summation order are not modelled.
- The `CGFloat(x) / 255` channel conversion and the tolerance-based `==` of `UIColor` are floating point and are left out.
- `Colors.DecodeHex` counts the trimmed text in Unicode scalars, where Swift's `hex.count` counts Characters (grapheme clusters). A text holding `\r\n` or a letter with a combining mark, such as `#A\r\nB`, can therefore take a different branch than in Swift (the fallback here, the three-digit branch there).
- `Loadables.LeftPrism` and `Loadables.RightPrism` show the shape the prism template gives `Either`. `Either` is annotated `Prism` rather than the template's `prism`, so whether code generation produces them depends on how annotation keys are matched.
- `Colors.IsAlnum`: alphanumerics are ASCII letters and digits. Unicode letters in `CharacterSet.alphanumerics` are not modelled.
- `Colors.ScanHex` does not model `scanHexInt32`'s overflow saturation. It can matter only for texts longer than 8 digits, which decode to black whatever the value.
- `WithPrevious.ZipIfNotEmpty`: the non-empty branch hands the collection to the reactive library's `zip`, which is a parameter here.
- `FreeFunctions.Recursively` is modelled on a finite tree. A `children` function that returns cycles, so that the Swift code never terminates, is not modelled.
- `FreeFunctions.Resample` requires `newSize >= 0` when the input is not empty. Swift traps on the range `0 ..< newSize` with a negative bound, and the trap is not modelled.
- `Colors.DecodeHex` states in its own contract only the component ranges and the fallback. The per-length formulas are the lemmas `Colors.DecodeThreeHexDigits`, `Colors.DecodeSixHexDigits` and `Colors.DecodeEncodedArgb`.
- `Collections.Middle` and `FreeFunctions.Resample` do not model 64-bit overflow of `upper - lower` and `i * size`. Integers are unbounded here.
- `Collections.IsNotEmpty` is stated for sequences. Dictionaries and sets conform to `Occupiable` in the same way.
- `Collections.LookupByRawValue` is stated for dictionaries keyed by strings. A forced cast `as! Key` to another key type traps in Swift.
- `toVoid`, `breakpoint`, `empty`, `benchmark`, `time`, `onMainQueue`, `onGlobalUtilityQueue`, `executeOn` and `Optional.as` are effects or dynamic casts with no logic to model.
- The floating-point, image and geometry helpers in the `FreeFunctions` files are left out: `rotate`, `scale`, `transform`, `radians`, `ifNaN`, `*` and `drawRects`.
- `>>>` is left out.
- `Pair.overlay()` composes images, and the `Codable`/`Hashable` conformances are not modelled.
