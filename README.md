# CSS selector builder

This is a Dafny model of the CSS selector builder in `src/06-objects-tasks.js`. It covers the `Impostor` class and the `cssSelectorBuilder` facade. The facade starts a new `Impostor` for each first call. Each builder collects the fragments of one compound selector:

- `element`
- `id`
- `class`
- `attr`
- `pseudoClass`
- `pseudoElement`

A builder can also be overwritten with `combine`. `stringify` returns the text built so far.

A builder throws in two cases:

- the **duplicate error**: a second `element`, `id` or `pseudoElement` call;
- the **order error**: a call that breaks the order check `isOrderRight`.

The model has five modules. `SelectorKinds` and `SelectorState` are pure; the rest follow the source's classes and its examples.

- **`SelectorKinds`** (`selector_kinds.dfy`) holds:
  - the six fragment kinds;
  - the canonical list that `rightSelectorOrder` starts as;
  - the text each kind contributes;
  - the two array built-ins the order check uses: `indexOf` as `IndexOf`, and `slice` with its negative-index clamping as `JsSlice`;
  - the `every` callback as `Every`;
  - `Spread`, an independent statement of that callback on ranks: the `i`-th recorded kind is at least `i` places after the first one in canonical order.
- **`SelectorState`** (`selector_state.dfy`) describes the builder's seven fields as one value, `State`, and each fragment call as a function `Apply` on it. `Valid` is the invariant kept by every builder reached through the constructor, the six fragment calls and `combine`. A direct `isOrderRight` call on a builder with an empty record does not keep it; see `SelectorState.DirectCheckOnNewBuilder`. The chain lemmas say which whole call chains pass and what they render.
- **`SelectorBuilder`** and **`CssSelectorBuilder`** (`selector_builder.dfy`) are the class and the facade:
  - `Impostor` keeps the source's fields;
  - its methods change them step by step, as the source does;
  - each method's contract ties the new fields and the outcome to `Apply`, so every lemma about `Apply` carries over to the objects.
- **`SelectorExamples`** and **`SelectorUsage`** (`selector_examples.dfy`, `selector_usage.dfy`) work through the documented examples and the error cases. The first does this on the pure model, the second on the objects.

A thrown error is an `Outcome`: `Fail(DuplicatePart)` or `Fail(WrongOrder)`. `SelectorError.Message` gives the two messages the source throws. The fields a call changed before throwing stay changed, as they do in the source:

- a bumped counter;
- a kind pushed onto `currentOrder`;
- the one-time slice of `rightSelectorOrder`.

Where the code and its documentation disagree, the model follows the code. The layout comment `element#id.class[attr]:pseudoClass::pseudoElement` (`src/06-objects-tasks.js:68-71`) and the `isAJoke` order message (`src/06-objects-tasks.js:123`) both say the fragments must come in the canonical order. The code's check is weaker. It slices the canonical list once, at the first recorded kind. It then requires each recorded kind's index in the sliced list to be at least that kind's position in the record. So `element(a).attr(x).class(y)` passes, although `class` comes before `attribute` in canonical order (`SelectorExamples.AttributeBeforeClassPasses`). What the code does accept is stated exactly by `SelectorState.ChainPassesIff`:

- no singleton kind is repeated;
- the record is spread out in the sense of `Spread`.

The record is `currentOrder`. Repeated kinds that follow each other are kept once in it.

## Model

| member | source | states |
|---|---|---|
| SelectorKinds.Rank | src/06-objects-tasks.js:124 | Each kind sits at its rank in the canonical list `element, id, class, attribute, pseudo-class, pseudo-element`. |
| SelectorKinds.IndexOfFirst | src/06-objects-tasks.js:135 | `indexOf` returns -1 exactly when the kind is absent; otherwise it returns the position of its first occurrence. |
| SelectorKinds.JsSliceSuffix | src/06-objects-tasks.js:136 | `slice(start)` keeps the suffix from `start` when it is in range. A negative start keeps the last `-start` entries, or all of them. A start past the end keeps nothing. The result is always a suffix. |
| SelectorKinds.WindowIndex | src/06-objects-tasks.js:135-140 | In the canonical list sliced at kind `first`, a kind is found at its rank distance from `first` when it ranks at or after `first`. It is not found (-1) when it ranks before. |
| SelectorKinds.CanonicalIndex | src/06-objects-tasks.js:124-135 | In the unsliced list `indexOf` finds every kind at its rank, so the first slice starts at the first recorded kind. |
| SelectorKinds.EveryIffSpread | src/06-objects-tasks.js:138-140 | The literal `every((value, index) => index <= indexOf(value))` test holds exactly when the record is spread out in canonical order. Both directions are proved. |
| SelectorKinds.IncreasingIsSpread | src/06-objects-tasks.js:138-140 | A record whose kinds strictly increase in canonical order passes the rank test. |
| SelectorKinds.SpreadPrefix | src/06-objects-tasks.js:138-140 | Removing the last recorded kind keeps a record spread out, so a chain that failed the order check stays failed. |
| SelectorKinds.SpreadMembers | src/06-objects-tasks.js:135-140 | No recorded kind of a spread-out record ranks before its first kind. |
| SelectorState.CheckOrderSlicesOnce | src/06-objects-tasks.js:132-141 | The check sets `magic`. Once `magic` is set, the check changes no field. A second check gives the same fields and the same answer. Only `magic` and the window ever change. |
| SelectorState.DirectCheckOnNewBuilder | src/06-objects-tasks.js:132-141 | On a new builder, `isOrderRight` finds index -1 for the missing first entry. `slice(-1)` then keeps only `pseudo-element`, and the check passes on the empty record. The builder is then no longer valid, and a following `element` throws the order error. |
| SelectorState.CheckOrderIsSpread | src/06-objects-tasks.js:132-141 | Take a non-empty record and the window as it stands before or after the one-time slice. The check answers `Spread` of the record, and leaves the window as the canonical list sliced at the first recorded kind. |
| SelectorState.Apply | src/06-objects-tasks.js:143-213 | A fragment call appends exactly its rendered text when it passes. When it throws, it leaves the selector unchanged. It throws the duplicate error exactly when its guarding counter was already at least 1. It then leaves the record, `magic` and the window unchanged. |
| SelectorState.ApplyStep | src/06-objects-tasks.js:143-213 | A call on a valid builder keeps it valid. Its outcome is `Verdict`: the duplicate error for a singleton kind already recorded, else the order error unless the record with the kind noted is spread out. A call that gets past the duplicate test leaves that record, with `magic` set. |
| SelectorState.NotedStep | src/06-objects-tasks.js:147-153 | For a call past the duplicate test, it passes exactly when the record with the kind noted is spread out. That record is the new `currentOrder`. |
| SelectorState.CallFacts | src/06-objects-tasks.js:143-213 | `class`, `attr` and `pseudoClass` never throw the duplicate error. A singleton call past the duplicate test pushes its kind. A repeatable one pushes its kind unless it is already last. On a valid builder the outcome is the verdict. |
| SelectorState.DuplicateKeepsValid | src/06-objects-tasks.js:144-147 | On a valid builder a recorded singleton has a non-zero counter. Bumping it again keeps the builder valid. |
| SelectorState.Collapse | src/06-objects-tasks.js:169-200 | The record a chain leaves keeps its first and last kinds and the same set of kinds. It is never longer than the chain. |
| SelectorState.Run | src/06-objects-tasks.js:143-222 | A chain of calls that passes appends the rendering of all its calls, in order, to the starting selector. |
| SelectorState.ChainSelector | src/06-objects-tasks.js:225-248 | A chain started from the facade that passes stringifies to its calls rendered in order. |
| SelectorState.Combined | src/06-objects-tasks.js:216 | The combined selector is the left selector, one space, the combinator, one space, then the right selector. Each part is recoverable from its place. |
| SelectorState.ChainInvariant | src/06-objects-tasks.js:119-213 | A chain passes exactly when it is admissible. When it passes, it leaves a valid builder whose `currentOrder` is the collapsed kinds of its calls and whose selector is their rendering. |
| SelectorState.ChainPassesIff | src/06-objects-tasks.js:132-213 | A chain passes exactly when it calls no singleton twice and its collapsed record is spread out. |
| SelectorState.CanonicalChainPasses | src/06-objects-tasks.js:124-213 | A chain whose kinds never go backwards in canonical order, with each singleton at most once, never throws. Its selector is the concatenation of its rendered calls. |
| SelectorState.CollapseIncreasing | src/06-objects-tasks.js:169-200 | Keeping repeated kinds once turns a record that never goes backwards into a strictly increasing one. |
| SelectorState.FreshFirstCall | src/06-objects-tasks.js:120-141 | The first call on a new builder never throws. Its selector is that call's text, and its record is that one kind. |
| SelectorState.DuplicateSingletonFails | src/06-objects-tasks.js:144-147 | A second `element`, `id` or `pseudoElement` on a chain that passed throws the duplicate error. It throws before the order check and before the append, so the selector is unchanged. |
| SelectorState.DuplicateStep | src/06-objects-tasks.js:144-147 | On a valid builder, a singleton call whose kind is already recorded throws the duplicate error and leaves the selector unchanged. |
| SelectorState.EarlierKindRejected | src/06-objects-tasks.js:132-141 | After a chain that passed, a kind ranking before the chain's first kind is missing from the sliced window (`indexOf` gives -1). So the call throws the order error, and the selector is unchanged. |
| SelectorState.EarlierKindStep | src/06-objects-tasks.js:132-141 | On a valid builder with a spread-out record, a kind ranking before the first recorded kind has index -1 in the window, and the call throws the order error. |
| SelectorState.RepeatedKindPasses | src/06-objects-tasks.js:169-200 | A `class`, `attr` or `pseudoClass` call right after one of its own kind is not recorded again. It passes and appends its text. |
| SelectorExamples.RepeatedClassExample | src/06-objects-tasks.js:169-178 | `class(x).class(y)` passes and renders `.x.y`. |
| SelectorExamples.IdTwiceExample | src/06-objects-tasks.js:156-160 | `id(x).id(y)` throws the duplicate error. |
| SelectorExamples.ElementAfterClassExample | src/06-objects-tasks.js:143-151 | `class(x).element(y)` throws the order error. |
| SelectorExamples.PseudoClassAfterPseudoElementExample | src/06-objects-tasks.js:191-200 | `pseudoElement(x).pseudoClass(y)` throws the order error. |
| SelectorExamples.CollapseElementAttributeClass | src/06-objects-tasks.js:143-189 | The record of `element, attr, class` is `[element, attribute, class]`. |
| SelectorExamples.ElementAttributeClassPasses | src/06-objects-tasks.js:132-189 | `element(a).attr(x).class(y)` passes and renders its three parts in call order. |
| SelectorExamples.AttributeBeforeClassPasses | src/06-objects-tasks.js:123-141 | The order check passes `element(a).attr(x).class(y)` and renders `a[x].y`, although that order is not the canonical one. |
| SelectorBuilder.Impostor.constructor | src/06-objects-tasks.js:120-130 | A new builder has an empty selector and record, zero counters, `magic` unset and the whole canonical list. It is valid. |
| SelectorBuilder.Impostor.IsOrderRight | src/06-objects-tasks.js:132-141 | The method changes the fields as `CheckOrder` says. It then has `magic` set. The window changes only on the first run. The record and selector are untouched. |
| SelectorBuilder.Impostor.Element | src/06-objects-tasks.js:143-154 | The method is `Apply` for `element`. It appends the value on success and leaves the selector unchanged on a throw. It throws the duplicate error exactly when `elemCount` was at least 1. On a valid builder it keeps validity and its outcome is the verdict. |
| SelectorBuilder.Impostor.Id | src/06-objects-tasks.js:156-167 | Like `Element`, but it appends `#value` and the duplicate error is guarded by `idCount`. |
| SelectorBuilder.Impostor.Class | src/06-objects-tasks.js:169-178 | The method is `Apply` for `class`. It pushes `class` unless it is already last. It appends `.value` on success. It throws only the order error, with the selector unchanged. |
| SelectorBuilder.Impostor.Attr | src/06-objects-tasks.js:180-189 | Like `Class`, with `attribute` and `[value]`. |
| SelectorBuilder.Impostor.PseudoClass | src/06-objects-tasks.js:191-200 | Like `Class`, with `pseudo-class` and `:value`. |
| SelectorBuilder.Impostor.PseudoElement | src/06-objects-tasks.js:202-213 | Like `Element`, but it appends `::value` and the duplicate error is guarded by `psElCount`. |
| SelectorBuilder.Impostor.Combine | src/06-objects-tasks.js:215-218 | The selector becomes the old left and right selectors joined by ` combinator `. No other field changes, and validity is kept. Either argument may be the builder itself. |
| SelectorBuilder.Impostor.Stringify | src/06-objects-tasks.js:220-222 | The method returns the selector and changes nothing. It has no `modifies` clause. |
| CssSelectorBuilder.Element | src/06-objects-tasks.js:226-228 | The method returns a new, valid builder in the state `Chain([element(value)])` leaves. Its selector is `value`. |
| CssSelectorBuilder.Id | src/06-objects-tasks.js:230-232 | Same for `id`, with selector `#value`. |
| CssSelectorBuilder.Class | src/06-objects-tasks.js:234-236 | Same for `class`, with selector `.value`. |
| CssSelectorBuilder.Attr | src/06-objects-tasks.js:238-240 | Same for `attr`, with selector `[value]`. |
| CssSelectorBuilder.PseudoClass | src/06-objects-tasks.js:242-244 | Same for `pseudoClass`, with selector `:value`. |
| CssSelectorBuilder.PseudoElement | src/06-objects-tasks.js:246-248 | Same for `pseudoElement`, with selector `::value`. |
| CssSelectorBuilder.Combine | src/06-objects-tasks.js:250-252 | The method returns a new, valid builder holding the combined selector. Its other fields are those of a new builder. |
| SelectorUsage.ElementThen | src/06-objects-tasks.js:143-213 | `element(e)` followed by a call of any other kind passes. |
| SelectorUsage.IdAndClasses | src/06-objects-tasks.js:95-96 | `id(i).class(c1).class(c2)` stringifies to `#i.c1.c2`, as in `#main.container.editable`. |
| SelectorUsage.ElementAttributePseudoClass | src/06-objects-tasks.js:98-99 | `element(e).attr(a).pseudoClass(p)` stringifies to `e[a]:p`, as in `a[href$=".png"]:focus`. |
| SelectorUsage.IdTwice | src/06-objects-tasks.js:156-160 | A second `id` on an object throws the duplicate error, and the object's selector stays `#i1`. |
| SelectorUsage.ElementAfterClass | src/06-objects-tasks.js:143-151 | `element` after `class` on an object throws the order error, and the selector stays `.c`. |
| SelectorUsage.ElementIdClasses | src/06-objects-tasks.js:102 | `element(e).id(i).class(c1).class(c2)` leaves a valid builder with selector `e#i.c1.c2`. |
| SelectorUsage.NestedCombine | src/06-objects-tasks.js:101-114 | The nested `combine` example stringifies to the three combinations made innermost first. A blank combinator gives three spaces. |

## Left out

- `Rectangle` and `getArea` (`src/06-objects-tasks.js:23-31`) are not modelled: they are floating-point arithmetic outside the selector builder.
- `getJSON` and `fromJSON` (`src/06-objects-tasks.js:44-62`) are not modelled: they are thin wrappers over the platform's `JSON` and `Object.setPrototypeOf` built-ins.
- Exceptions are modelled as an `Outcome` result instead of control flow. The source throws the duplicate message as a bare string and the order message inside an `Error` object. The model keeps the two messages (`SelectorError.Message`) but not that difference in the thrown value.
- Methods return `this` in the source, for chaining. The model's methods return the outcome instead. Chaining is modelled by calling methods one after another on the same object, and as `Run`/`Chain` on the pure state.
- The `exception` and `isAJoke` message fields are constants in the model, not per-object fields, because no method changes them.
- `elemCount`, `idCount` and `psElCount` are unbounded naturals. JavaScript numbers lose precision above 2^53, far beyond any chain of calls.
- `magic` is a boolean. The source stores `0`/`1` and only tests its truthiness.
- `SelectorBuilder.Impostor.Combine` takes two `Impostor` objects. The source accepts any object with a `stringify` method.
- `SelectorUsage` states the documented examples for arbitrary fragment values rather than for the literal strings of the documentation, such as `'main'` and `'container'`. The documented strings are instances of those statements.
- Fragment values are strings. The source appends any value with `+=` and template literals (`src/06-objects-tasks.js:152`, `:165`), converting it to a string; that conversion is not modelled.
- `SelectorState.Valid` is not kept by a direct `isOrderRight` call on a builder with nothing recorded, such as a new or `combine`d builder. Such a builder's later calls are covered by `SelectorState.Apply` and `SelectorState.CheckOrderSlicesOnce` only. The chain lemmas do not cover them, because they start from the fields a new builder has.
