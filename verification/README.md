# TriState and the survey view model, in Dafny

This project models the two sequential components of a small Android survey
app.

- **The `TriState<T>` algebra** (`TriState.kt`). A value is exactly one of
  `Idle`, `Error(message)` or `Content(data)`. Around it sits a combinator
  library: the factories and `effect`; `map` and `flatMap`; the predicates;
  the taps `onIdle`/`onError`/`onContent`/`onEach`; `fold`; the extractors;
  `recover`/`recoverWith`; and the extensions `zip`, `combine`, `flatten` and
  `parallelSequence`. The files are `tri_state.dfy` (module `TriStates`, the
  operations), `tri_state_laws.dfy` (module `TriStateLaws`, the functor, monad
  and recovery laws) and `parallel_sequence.dfy` (module `ParallelSequencing`).
  `parallelSequence` is proved equal to an independent single-pass reference
  (`Accumulate`). The partition-based construction and the reference share
  the same policy: all error messages in list order joined by `"; "`; else all
  payloads; else one `Idle`.
- **The survey navigation state machine** (`QuestionViewModel.kt`, module
  `Survey` in `question_view_model.dfy`). The state has four parts: the
  1-based question counter, the current question, the current selection, and
  one saved selection per question. The transitions are `next`, `previous`
  and `onOptionSelected`. `UiState` derives `hasNext` and `hasPrevious`. An
  object invariant (`Valid`) is established by construction and kept by every
  transition. The model also has the bottom bar of the question screen driving
  the view model (`RunScreen`).

Kotlin nullable values (`T?`) are `Optional.Option`. The Kotlin code mutates
a state holder in place. Here each transition returns a new view model. Kotlin
list indexing throws outside the list, and the model returns that failure as
`IndexOutOfBounds(index)`.

Two points where the code is weaker than one might expect:
- The code never enforces a non-empty `Error` message. `error("")` gives an
  empty message, and so does `effect` around a failure whose message is `""`.
  The model allows the empty message too. `Effect` guarantees a non-empty
  message only when the failure's description is absent or non-empty.
- `zip` and `combine` take `other` as an ordinary argument, so it is already
  evaluated when they are called. Only the fact that the result does not
  depend on `other` after a non-`Content` receiver is observable, and that is
  what the model states (`ZipIgnoresOtherAfterShortCircuit`).

## Model

| member | source | states |
|---|---|---|
| `TriStates.Effect` | app/src/main/java/com/studentofknowledge/mviarchitecture/domain/utility/TriState.kt:17-23 | a returned value becomes `Content` of it; a thrown failure becomes `Error` with its description, or "Unknown error occurred" when it has none; never `Idle`, never propagates |
| `TriStateLaws.EffectExtracted` | app/src/main/java/com/studentofknowledge/mviarchitecture/domain/utility/TriState.kt:17-23 | `getOrNull` of the result is `x` iff the action returned `x`; `getErrorMessage` is `m` iff the action threw `m`, or threw without a description and `m` is the fallback |
| `TriStates.Map` | app/src/main/java/com/studentofknowledge/mviarchitecture/domain/utility/TriState.kt:38-42 | the variant is kept; an error keeps its message; only a payload is transformed |
| `TriStateLaws.MapIdentity` | app/src/main/java/com/studentofknowledge/mviarchitecture/domain/utility/TriState.kt:38-42 | functor identity: mapping the identity changes nothing |
| `TriStateLaws.MapComposition` | app/src/main/java/com/studentofknowledge/mviarchitecture/domain/utility/TriState.kt:38-42 | functor composition: mapping `f` then `g` is mapping `g ∘ f` |
| `TriStateLaws.MapIsFlatMapPure` | app/src/main/java/com/studentofknowledge/mviarchitecture/domain/utility/TriState.kt:38-49 | `map(f)` equals `flatMap(x -> pure(f(x)))` |
| `TriStates.FlatMap` | app/src/main/java/com/studentofknowledge/mviarchitecture/domain/utility/TriState.kt:45-49 | `Idle` and `Error(m)` propagate unchanged; `Content(x)` gives exactly the transform's result, not wrapped again |
| `TriStateLaws.FlatMapLeftIdentity` | app/src/main/java/com/studentofknowledge/mviarchitecture/domain/utility/TriState.kt:14-49 | monad left identity: `pure(x).flatMap(f) == f(x)` |
| `TriStateLaws.FlatMapRightIdentity` | app/src/main/java/com/studentofknowledge/mviarchitecture/domain/utility/TriState.kt:14-49 | monad right identity: `m.flatMap(pure) == m` |
| `TriStateLaws.FlatMapAssociativity` | app/src/main/java/com/studentofknowledge/mviarchitecture/domain/utility/TriState.kt:45-49 | monad associativity |
| `TriStateLaws.ExactlyOneVariant` | app/src/main/java/com/studentofknowledge/mviarchitecture/domain/utility/TriState.kt:52-54 | exactly one of `isIdle`, `isError`, `isContent` holds |
| `TriStates.OnIdle` | app/src/main/java/com/studentofknowledge/mviarchitecture/domain/utility/TriState.kt:57-59 | returns the receiver unchanged; its callback fires once for `Idle` and never otherwise |
| `TriStates.OnError` | app/src/main/java/com/studentofknowledge/mviarchitecture/domain/utility/TriState.kt:61-63 | returns the receiver unchanged; its callback fires once, with the message, exactly for `Error` |
| `TriStates.OnContent` | app/src/main/java/com/studentofknowledge/mviarchitecture/domain/utility/TriState.kt:65-67 | returns the receiver unchanged; its callback fires once, with the payload, exactly for `Content` |
| `TriStates.OnEach` | app/src/main/java/com/studentofknowledge/mviarchitecture/domain/utility/TriState.kt:70-80 | returns the receiver unchanged; exactly one callback fires, the one for the active variant |
| `TriStateLaws.OnEachIsChainedTaps` | app/src/main/java/com/studentofknowledge/mviarchitecture/domain/utility/TriState.kt:57-80 | `onEach(a, b, c)` has the same result and the same effects as `onIdle(a).onError(b).onContent(c)` |
| `TriStates.Fold` | app/src/main/java/com/studentofknowledge/mviarchitecture/domain/utility/TriState.kt:83-91 | the result is the handler of the active variant, applied to its payload or message |
| `TriStateLaws.FoldWithConstructors` | app/src/main/java/com/studentofknowledge/mviarchitecture/domain/utility/TriState.kt:83-91 | folding with the three constructors rebuilds the receiver, so `fold` loses nothing |
| `TriStateLaws.CombinatorsAreFolds` | app/src/main/java/com/studentofknowledge/mviarchitecture/domain/utility/TriState.kt:38-109 | `map`, `flatMap`, `getOrNull`, `getErrorMessage` and `getOrDefault` are each a particular `fold` |
| `TriStates.GetOrNull` | app/src/main/java/com/studentofknowledge/mviarchitecture/domain/utility/TriState.kt:94-97 | present exactly for `Content`, and then the payload |
| `TriStates.GetOrDefault` | app/src/main/java/com/studentofknowledge/mviarchitecture/domain/utility/TriState.kt:99-102 | the payload for `Content`, the default for `Idle` and `Error` |
| `TriStates.GetOrDefaultWith` | app/src/main/java/com/studentofknowledge/mviarchitecture/domain/utility/TriState.kt:104-107 | the payload for `Content`, the supplier's value otherwise |
| `TriStateLaws.GetOrDefaultForms` | app/src/main/java/com/studentofknowledge/mviarchitecture/domain/utility/TriState.kt:99-107 | the supplier form agrees with the value form; `getOrDefault` is `getOrNull` with a default; for `Content` the default is irrelevant |
| `TriStates.GetErrorMessage` | app/src/main/java/com/studentofknowledge/mviarchitecture/domain/utility/TriState.kt:109-109 | present exactly for `Error`, and then its message |
| `TriStateLaws.ExtractorsDetermineState` | app/src/main/java/com/studentofknowledge/mviarchitecture/domain/utility/TriState.kt:94-109 | `getOrNull` and `getErrorMessage` together determine the state |
| `TriStates.Recover` | app/src/main/java/com/studentofknowledge/mviarchitecture/domain/utility/TriState.kt:112-118 | `Error(m)` becomes `Content(f(m))`; `Content` and `Idle` pass through, so the result is never `Error` and is `Idle` exactly when the receiver is |
| `TriStates.RecoverWith` | app/src/main/java/com/studentofknowledge/mviarchitecture/domain/utility/TriState.kt:120-126 | `Error(m)` becomes `f(m)`; `Content` and `Idle` pass through |
| `TriStateLaws.RecoverIsRecoverWithContent` | app/src/main/java/com/studentofknowledge/mviarchitecture/domain/utility/TriState.kt:112-126 | `recover(f)` is `recoverWith(m -> content(f(m)))` |
| `TriStateLaws.RecoverKeepsIdle` | app/src/main/java/com/studentofknowledge/mviarchitecture/domain/utility/TriState.kt:112-126 | recovering `Idle`, with either operation, gives `Idle`, never `Content` |
| `TriStateLaws.RecoverIdempotent` | app/src/main/java/com/studentofknowledge/mviarchitecture/domain/utility/TriState.kt:112-118 | a second `recover` changes nothing |
| `TriStateLaws.RecoverWithLaws` | app/src/main/java/com/studentofknowledge/mviarchitecture/domain/utility/TriState.kt:120-126 | `recoverWith` is a bind on the error side: `error` is its left and right unit, and it is associative |
| `TriStateLaws.RecoverMapCommute` | app/src/main/java/com/studentofknowledge/mviarchitecture/domain/utility/TriState.kt:112-118 | `recover` then `map(f)` equals `map(f)` then `recover` with the mapped transform |
| `TriStates.Zip` | app/src/main/java/com/studentofknowledge/mviarchitecture/domain/utility/TriState.kt:130-131 | a non-`Content` receiver decides the result; with a `Content` receiver, `other`'s `Idle`/`Error` propagates; two payloads give their pair |
| `TriStateLaws.ZipIgnoresOtherAfterShortCircuit` | app/src/main/java/com/studentofknowledge/mviarchitecture/domain/utility/TriState.kt:130-131 | when the receiver is not `Content`, the result does not depend on `other` |
| `TriStateLaws.ZipProjections` | app/src/main/java/com/studentofknowledge/mviarchitecture/domain/utility/TriState.kt:130-131 | `zip` has a payload exactly when both sides do, and its projections give both payloads back |
| `TriStates.Combine` | app/src/main/java/com/studentofknowledge/mviarchitecture/domain/utility/TriState.kt:133-138 | the same short-circuit order as `zip`; two payloads give `transform` of them |
| `TriStateLaws.CombineIsZipThenMap` | app/src/main/java/com/studentofknowledge/mviarchitecture/domain/utility/TriState.kt:130-138 | `combine(o, f)` equals `zip(o)` followed by mapping `f` over the pair |
| `TriStates.Flatten` | app/src/main/java/com/studentofknowledge/mviarchitecture/domain/utility/TriState.kt:140-141 | an outer `Idle`/`Error` propagates; an outer `Content` gives the inner state |
| `TriStateLaws.FlattenLaws` | app/src/main/java/com/studentofknowledge/mviarchitecture/domain/utility/TriState.kt:140-141 | the monad laws through `flatten`: `pure(m).flatten() == m`, `m.map(pure).flatten() == m`, and flattening a triple nesting from the outside equals flattening it from the inside |
| `TriStateLaws.FlatMapIsMapThenFlatten` | app/src/main/java/com/studentofknowledge/mviarchitecture/domain/utility/TriState.kt:140-141 | `flatMap(f)` equals `map(f)` then `flatten` |
| `ParallelSequencing.Partition` | app/src/main/java/com/studentofknowledge/mviarchitecture/domain/utility/TriState.kt:145-145 | the first part holds only matching elements and the second only the others; the sizes add up; with no match the second part is the whole list; a one-element list goes to the side its predicate picks |
| `ParallelSequencing.PartitionIsFilters` | app/src/main/java/com/studentofknowledge/mviarchitecture/domain/utility/TriState.kt:145-145 | `partition` equals the pair (`filter`, `filterNot`), each defined independently as the elements on which the predicate gives true, resp. false, in list order |
| `ParallelSequencing.PartitionAppend` | app/src/main/java/com/studentofknowledge/mviarchitecture/domain/utility/TriState.kt:145-145 | partitioning a concatenation concatenates the parts, so each side keeps list order; with the one-element case this fixes `partition` on every list |
| `ParallelSequencing.PartitionPermutes` | app/src/main/java/com/studentofknowledge/mviarchitecture/domain/utility/TriState.kt:145-145 | the two sides together are a permutation (equal multisets) of the input |
| `ParallelSequencing.MapNotNull` | app/src/main/java/com/studentofknowledge/mviarchitecture/domain/utility/TriState.kt:149-149 | never longer than the input; when every result is present, it is exactly the results in order; one element gives its result if present and nothing otherwise |
| `ParallelSequencing.MapNotNullAppend` | app/src/main/java/com/studentofknowledge/mviarchitecture/domain/utility/TriState.kt:149-153 | `mapNotNull` of a concatenation is the concatenation of the results; with the one-element case this fixes `mapNotNull` on every list |
| `ParallelSequencing.JoinToString` | app/src/main/java/com/studentofknowledge/mviarchitecture/domain/utility/TriState.kt:150-150 | no parts give the empty string; one part gives that part; otherwise the result starts with the first part followed by the separator |
| `ParallelSequencing.JoinToStringAppend` | app/src/main/java/com/studentofknowledge/mviarchitecture/domain/utility/TriState.kt:150-150 | appending a part to a non-empty list appends the separator and that part; with the empty and one-part cases this fixes `joinToString` on every list |
| `ParallelSequencing.ParallelSequence` | app/src/main/java/com/studentofknowledge/mviarchitecture/domain/utility/TriState.kt:144-156 | `Error` iff some element is an error; `Content` iff every element is, and then the payloads in order; `Idle` iff there is no error and some element is idle |
| `ParallelSequencing.ParallelSequenceCons` | app/src/main/java/com/studentofknowledge/mviarchitecture/domain/utility/TriState.kt:144-156 | the partition-based result for a non-empty list is the first element merged into the result for the rest |
| `ParallelSequencing.ParallelSequenceIsAccumulate` | app/src/main/java/com/studentofknowledge/mviarchitecture/domain/utility/TriState.kt:144-156 | on every list, the partition-based construction equals the single-pass reference: errors accumulate in order with "; ", else payloads, else `Idle` |
| `ParallelSequencing.SingleErrorKeepsMessage` | app/src/main/java/com/studentofknowledge/mviarchitecture/domain/utility/TriState.kt:148-151 | a list with exactly one error gives exactly that error's message |
| `ParallelSequencing.ErrorsAccumulateInOrder` | app/src/main/java/com/studentofknowledge/mviarchitecture/domain/utility/TriState.kt:148-151 | appending an error to a failing list appends "; " and its message to the aggregate message |
| `ParallelSequencing.ExampleAllContent` | app/src/main/java/com/studentofknowledge/mviarchitecture/domain/utility/TriState.kt:152-154 | `[content(1), content(2), content(3)]` gives `content([1, 2, 3])` |
| `ParallelSequencing.ExampleOneError` | app/src/main/java/com/studentofknowledge/mviarchitecture/domain/utility/TriState.kt:148-151 | `[content(1), error("bad"), content(3)]` gives `error("bad")` |
| `ParallelSequencing.ExampleTwoErrors` | app/src/main/java/com/studentofknowledge/mviarchitecture/domain/utility/TriState.kt:148-151 | `[error("a"), error("b")]` gives `error("a; b")` |
| `ParallelSequencing.ExamplePendingAndEmpty` | app/src/main/java/com/studentofknowledge/mviarchitecture/domain/utility/TriState.kt:152-155 | `[content(1), idle()]` gives `idle()`; `[]` gives `content([])` |
| `Survey.Init` | app/src/main/java/com/studentofknowledge/mviarchitecture/ui/QuestionViewModel.kt:12-33 | an empty list throws on `questions[0]`; otherwise the state is valid, with counter 1, the first question, total = list size and no selection in any slot |
| `Survey.Next` | app/src/main/java/com/studentofknowledge/mviarchitecture/ui/QuestionViewModel.kt:37-53 | keeps the invariant; a no-op on the last question; otherwise the counter goes up by one and the state shows `questions[oldCount]` with the selection saved for it; the saved selections and the total do not change |
| `Survey.PreviousAsWritten` | app/src/main/java/com/studentofknowledge/mviarchitecture/ui/QuestionViewModel.kt:54-70 | on the first question it throws on index -1; wherever `UiState.hasPrevious` holds it is the corrected `Previous` |
| `Survey.Previous` | app/src/main/java/com/studentofknowledge/mviarchitecture/ui/QuestionViewModel.kt:54-70 | with the guard `questionCount > 1`: keeps the invariant; a no-op on the first question; otherwise the counter goes down by one and the state shows that question with its saved selection; the saved selections and the total do not change |
| `Survey.OnOptionSelected` | app/src/main/java/com/studentofknowledge/mviarchitecture/ui/QuestionViewModel.kt:72-77 | keeps the invariant; writes the selection into slot `questionCount - 1` and shows it; every other slot and every other field is unchanged |
| `Survey.HasNextAgrees` | app/src/main/java/com/studentofknowledge/mviarchitecture/ui/QuestionViewModel.kt:24-25 | the private `hasNext` agrees with `UiState.hasNext` (line 86) on every valid state |
| `Survey.HasPreviousDisagrees` | app/src/main/java/com/studentofknowledge/mviarchitecture/ui/QuestionViewModel.kt:27-28 | the private `hasPrevious` holds on every valid state, and it disagrees with `UiState.hasPrevious` (line 87) exactly on the first question |
| `Survey.PreviousAsWrittenThrowsAtStart` | app/src/main/java/com/studentofknowledge/mviarchitecture/ui/QuestionViewModel.kt:62-67 | for every non-empty question list, `previous()` right after construction throws on index -1 |
| `Survey.NextThenPrevious` | app/src/main/java/com/studentofknowledge/mviarchitecture/ui/QuestionViewModel.kt:45-69 | where `hasNext` holds, `next` then `previous` returns exactly the original state |
| `Survey.PreviousThenNext` | app/src/main/java/com/studentofknowledge/mviarchitecture/ui/QuestionViewModel.kt:45-69 | where `hasPrevious` holds, `previous` then `next` returns exactly the original state |
| `Survey.SelectionSurvivesRoundTrip` | app/src/main/java/com/studentofknowledge/mviarchitecture/ui/QuestionViewModel.kt:45-77 | selecting `s`, then `next`, then `previous`, shows `s` again and returns to the state just after the selection |
| `Survey.RunScreen` | app/src/main/java/com/studentofknowledge/mviarchitecture/ui/QuestionScreen.kt:155-169 | driving the view model as written through the screen's gated buttons never throws and keeps the invariant, for every click sequence; an empty question list fails at construction; Done is reached only on the last question |

## Findings

| source | as written | input that shows it | evidently intended | confidence | as-written member | corrected member |
|---|---|---|---|---|---|---|
| app/src/main/java/com/studentofknowledge/mviarchitecture/ui/QuestionViewModel.kt:27-28 | the private `hasPrevious` is `questionCount > 0`, so `previous()` goes on at question 1 and reads `questions[questionIndex - 1]`, which is `questions[-1]` | any non-empty question list; call `previous()` right after construction | the guard `questionCount > 1`, as `UiState.hasPrevious` (line 87) states | high; not executed | `Survey.PreviousAsWrittenThrowsAtStart` | `Survey.Previous` |

`Survey.PreviousAsWritten` models the method as written. Nothing in the model
uses it except `RunScreen`. `RunScreen` models the button gating of the
question screen for a single view-model instance: the Previous button is
enabled only while `UiState.hasPrevious` holds, so the throwing read cannot
be reached from a click. The counter stays within `1..questions.size` even
without that gating. The throwing read of `questions[questionIndex - 1]`
(QuestionViewModel.kt:66) happens inside the `update` lambda, before
anything is written, so the exception leaves the state as it was. What the
gating prevents is the exception itself, which would crash the click
handler. The model shows the same thing: `PreviousAsWritten` returns
`IndexOutOfBounds(-1)` and no new view model.

## Left out

- `suspendEffect` (TriState.kt:26-34): its contract is that of `Effect` over the same `Outcome`; it differs only in coroutine suspension. Whether a cancellation signal is swallowed into `Error` is not modelled: a failure is just an optional message.
- The Kotlin `Throwable` hierarchy, `inline`/`crossinline` and `@UnsafeVariance`: a thrown failure is `Threw(description)`, and `TriState` is declared covariant (`+T`).
- Laziness: `map` not calling its transform, and `getOrDefault` not calling its supplier, for the other variants. The transforms are pure total functions, so only the values are observable.
- Default no-op callbacks of `onEach`: a caller passes the callbacks explicitly. A tap callback is modelled as a function returning the record of the effect it performs, and a tap returns the records of the callbacks that fired.
- `ParallelSequencing.ParallelSequence`, `TriStates.GetOrNull`, `TriStateLaws.EffectExtracted`, `TriStateLaws.ExtractorsDetermineState`: payloads are non-nullable. In Kotlin `T` may itself be nullable. Then `content(null).getOrNull()` is `null`, the same answer as for `idle`. So `getOrNull` does not tell `Content(null)` from `Idle`, and `EffectExtracted`'s first clause and `ExtractorsDetermineState` hold only for non-null payloads. Likewise the source's `mapNotNull` (TriState.kt:153) would drop `Content(null)` elements from `parallelSequence`'s result. None of this is modelled.
- `isIdle`/`isError`/`isContent` appear only as the predicates `IsIdle`/`IsError`/`IsContent`, which the properties use.
- `MutableStateFlow`/`StateFlow` observation and the retry loop of `update`: the UI state is a single field of an immutable view-model value.
- The 32-bit `Int` of `questionCount`: the counter stays between 1 and the list size, so it cannot wrap.
- Android resource annotations (`@StringRes`, `@DrawableRes`) in `Option` and `Question`: the identifiers are plain integers (`Survey.AnswerOption`, `Survey.Question`), compared only for equality.
- `QuestionScreen.kt:54` builds `QuestionViewModel(getQuestions())` directly in the composable, without `remember` or `viewModel()`, so a recomposition may create a fresh view model and drop the survey's progress. `RunScreen` follows one view-model instance throughout and does not model this.
- The Compose UI files (rendering, theming, animation, previews, the progress bar's float division). Only the bottom bar's button gating is modelled, in `RunScreen`.
